/// What a move of the current controller does to the board, the groups and
/// the liberties, stated over the value model of src/game_logic/game.rs.
module ControllerFacts {
  import opened Stones
  import opened Grids
  import opened DisjointSets
  import opened LibertyInterface
  import opened Controller

  /// The liberty list of a move holds exactly the flat indices of the
  /// move's on-board orthogonal neighbours, all of them nodes of the
  /// union-find, and never the move's own index.
  lemma LibertyListExact(pos: Pos, width: nat, height: nat)
    requires InBounds(pos, width, height)
    ensures forall i :: i in LibertyList(pos, width, height) ==> i < width * height
    ensures forall q: Pos :: InBounds(q, width, height) ==>
      (FlatIndex(q.0, q.1, width) in LibertyList(pos, width, height) <==> Orthogonal(q, pos))
    ensures FlatIndex(pos.0, pos.1, width) !in LibertyList(pos, width, height)
  {
    var cells := NeighbourCells(Adjacencies(pos), width, height);
    var list := LibertyList(pos, width, height);
    NeighbourCellsMembers(Adjacencies(pos), width, height);
    AdjacenciesAreNeighbours(pos);
    assert forall q: Pos :: q in cells <==> InBounds(q, width, height) && Orthogonal(q, pos);
    forall i | i in list
      ensures i < width * height
      ensures exists k :: 0 <= k < |cells| && i == FlatIndex(cells[k].0, cells[k].1, width)
    {
      var k :| 0 <= k < |list| && list[k] == i;
      assert cells[k] in cells;
      FlatIndexInverse(cells[k].0, cells[k].1, width, height);
    }
    forall q: Pos | InBounds(q, width, height)
      ensures FlatIndex(q.0, q.1, width) in list <==> Orthogonal(q, pos)
    {
      if Orthogonal(q, pos) {
        var k :| 0 <= k < |cells| && cells[k] == q;
        assert list[k] == FlatIndex(q.0, q.1, width);
      }
      if FlatIndex(q.0, q.1, width) in list {
        var k :| 0 <= k < |cells| && FlatIndex(q.0, q.1, width) == FlatIndex(cells[k].0, cells[k].1, width);
        assert cells[k] in cells;
        FlatIndexInjective(q.0, q.1, cells[k].0, cells[k].1, width, height);
      }
    }
  }

  /// A neighbour visit changes at most the visited cell, and only from the
  /// mover's opponent to empty; stones of the mover's colour stay put.
  lemma VisitAdjacentCells(g: GameState, mvIdx: nat, stone: Stone, a: Adjacent)
    requires Consistent(g) && mvIdx < g.width * g.height && stone != Empty
    ensures var res := VisitAdjacent(g, mvIdx, stone, a);
      forall r, c :: 0 <= r < g.height && 0 <= c < g.width ==>
        res.cells[r][c] == g.cells[r][c] ||
        (a == Adjacent(Some(r), Some(c)) && g.cells[r][c] == Opponent(stone).value && res.cells[r][c] == Empty)
  {
  }

  /// A neighbour visit never separates two nodes that were in one group.
  lemma VisitAdjacentCoarsens(g: GameState, mvIdx: nat, stone: Stone, a: Adjacent)
    requires Consistent(g) && mvIdx < g.width * g.height && stone != Empty
    ensures Coarsens(g.forest, VisitAdjacent(g, mvIdx, stone, a).forest)
  {
    if Accepted(a, g.width, g.height) {
      var adjRow, adjCol := a.row.value, a.col.value;
      FlatIndexInverse(adjRow, adjCol, g.width, g.height);
      var adjIdx := FlatIndex(adjRow, adjCol, g.width);
      if g.cells[adjRow][adjCol] == stone {
        UnionConnects(g.forest, mvIdx, adjIdx);
      }
    }
  }

  lemma CoarsensTransitive(f: Forest, g: Forest, h: Forest)
    requires ValidForest(f) && ValidForest(g) && ValidForest(h)
    requires |f.parent| == |g.parent| == |h.parent|
    requires Coarsens(f, g) && Coarsens(g, h)
    ensures Coarsens(f, h)
  {
  }

  /// The whole neighbour loop never separates two nodes that were in one group.
  lemma {:induction false} VisitAllCoarsens(g: GameState, mvIdx: nat, stone: Stone, adjs: seq<Adjacent>)
    requires Consistent(g) && mvIdx < g.width * g.height && stone != Empty
    ensures Coarsens(g.forest, VisitAll(g, mvIdx, stone, adjs).forest)
    decreases |adjs|
  {
    if adjs != [] {
      var next := VisitAdjacent(g, mvIdx, stone, adjs[0]);
      VisitAdjacentCoarsens(g, mvIdx, stone, adjs[0]);
      VisitAllCoarsens(next, mvIdx, stone, adjs[1..]);
      CoarsensTransitive(g.forest, next.forest, VisitAll(g, mvIdx, stone, adjs).forest);
    }
  }

  /// The whole neighbour loop clears only visited enemy cells and changes no
  /// other cell.
  lemma {:induction false} VisitAllCaptureOnly(g: GameState, mvIdx: nat, stone: Stone, adjs: seq<Adjacent>)
    requires Consistent(g) && mvIdx < g.width * g.height && stone != Empty
    ensures var res := VisitAll(g, mvIdx, stone, adjs);
      forall r, c :: 0 <= r < g.height && 0 <= c < g.width ==>
        res.cells[r][c] == g.cells[r][c] ||
        (Adjacent(Some(r), Some(c)) in adjs && g.cells[r][c] == Opponent(stone).value && res.cells[r][c] == Empty)
    decreases |adjs|
  {
    if adjs != [] {
      var next := VisitAdjacent(g, mvIdx, stone, adjs[0]);
      var res := VisitAll(g, mvIdx, stone, adjs);
      assert res == VisitAll(next, mvIdx, stone, adjs[1..]);
      VisitAdjacentCells(g, mvIdx, stone, adjs[0]);
      VisitAllCaptureOnly(next, mvIdx, stone, adjs[1..]);
      var enemy := Opponent(stone).value;
      assert enemy != Empty;
      forall r, c | 0 <= r < g.height && 0 <= c < g.width
        ensures res.cells[r][c] == g.cells[r][c] ||
          (Adjacent(Some(r), Some(c)) in adjs && g.cells[r][c] == enemy && res.cells[r][c] == Empty)
      {
        if next.cells[r][c] != g.cells[r][c] {
          assert adjs[0] == Adjacent(Some(r), Some(c)) && next.cells[r][c] == Empty;
          assert res.cells[r][c] == next.cells[r][c];
        } else if res.cells[r][c] != next.cells[r][c] {
          assert Adjacent(Some(r), Some(c)) in adjs[1..];
        }
      }
    }
  }

  /// Every visited neighbour holding the mover's colour ends up in the
  /// mover's group.
  lemma {:induction false} VisitAllJoinsAllies(g: GameState, mvIdx: nat, stone: Stone, adjs: seq<Adjacent>)
    requires Consistent(g) && mvIdx < g.width * g.height && stone != Empty
    ensures var res := VisitAll(g, mvIdx, stone, adjs);
      forall r, c ::
        (0 <= r < g.height && 0 <= c < g.width && Adjacent(Some(r), Some(c)) in adjs && g.cells[r][c] == stone) ==>
          FlatIndex(r, c, g.width) < g.width * g.height &&
          SameSet(res.forest, mvIdx, FlatIndex(r, c, g.width))
    decreases |adjs|
  {
    if adjs != [] {
      var next := VisitAdjacent(g, mvIdx, stone, adjs[0]);
      var res := VisitAll(g, mvIdx, stone, adjs);
      VisitAdjacentCells(g, mvIdx, stone, adjs[0]);
      VisitAllJoinsAllies(next, mvIdx, stone, adjs[1..]);
      VisitAllCoarsens(next, mvIdx, stone, adjs[1..]);
      forall r, c | 0 <= r < g.height && 0 <= c < g.width &&
          Adjacent(Some(r), Some(c)) in adjs && g.cells[r][c] == stone
        ensures FlatIndex(r, c, g.width) < g.width * g.height
        ensures SameSet(res.forest, mvIdx, FlatIndex(r, c, g.width))
      {
        FlatIndexInverse(r, c, g.width, g.height);
        if adjs[0] == Adjacent(Some(r), Some(c)) {
          UnionConnects(g.forest, mvIdx, FlatIndex(r, c, g.width));
          assert SameSet(next.forest, mvIdx, FlatIndex(r, c, g.width));
        } else {
          assert Adjacent(Some(r), Some(c)) in adjs[1..];
        }
      }
    }
  }

  /// `make_move` on an occupied cell changes nothing. On an empty cell the
  /// mover's stone lands there, the counter grows by one, the turn passes,
  /// and every other cell keeps its stone except orthogonal enemy neighbours,
  /// which may be cleared.
  lemma MakeMoveCells(g: GameState, row: nat, col: nat)
    requires Consistent(g) && row < g.height && col < g.width
    ensures g.cells[row][col] != Empty ==> MakeMoveSpec(g, row, col) == g
    ensures g.cells[row][col] == Empty ==>
      var res := MakeMoveSpec(g, row, col);
      var mover := ToPlay(g.turn);
      && res.cells[row][col] == mover
      && res.turn == !g.turn && res.moveNumber == g.moveNumber + 1 && res.gameOver == g.gameOver
      && forall r, c :: 0 <= r < g.height && 0 <= c < g.width && (r, c) != (row, col) ==>
           res.cells[r][c] == g.cells[r][c] ||
           (Orthogonal((r, c), (row, col)) && g.cells[r][c] == Opponent(mover).value && res.cells[r][c] == Empty)
  {
    if g.cells[row][col] == Empty {
      var stn := ToPlay(g.turn);
      var mvIdx := FlatIndex(row, col, g.width);
      var g1 := Prepared(g, row, col);
      var adjs := Adjacencies((row, col));
      var g2 := VisitAll(g1, mvIdx, stn, adjs);
      AdjacenciesAreNeighbours((row, col));
      VisitAllCaptureOnly(g1, mvIdx, stn, adjs);
      var res := MakeMoveSpec(g, row, col);
      assert res == g2.(cells := SetCell(g2.cells, row, col, stn), turn := !g2.turn);
      forall r, c | 0 <= r < g.height && 0 <= c < g.width && (r, c) != (row, col)
        ensures res.cells[r][c] == g.cells[r][c] ||
          (Orthogonal((r, c), (row, col)) && g.cells[r][c] == Opponent(stn).value && res.cells[r][c] == Empty)
      {
        assert res.cells[r][c] == g2.cells[r][c];
      }
    }
  }

  /// A move on an empty cell splits no group and brings every orthogonal
  /// neighbour of the mover's colour into the new stone's group.
  lemma MakeMoveGroups(g: GameState, row: nat, col: nat)
    requires Consistent(g) && row < g.height && col < g.width && g.cells[row][col] == Empty
    ensures FlatIndex(row, col, g.width) < g.width * g.height
    ensures var res := MakeMoveSpec(g, row, col);
      && Coarsens(g.forest, res.forest)
      && forall r, c ::
           (0 <= r < g.height && 0 <= c < g.width && Orthogonal((r, c), (row, col)) && g.cells[r][c] == ToPlay(g.turn)) ==>
             FlatIndex(r, c, g.width) < g.width * g.height &&
             SameSet(res.forest, FlatIndex(row, col, g.width), FlatIndex(r, c, g.width))
  {
    var stn := ToPlay(g.turn);
    var mvIdx := FlatIndex(row, col, g.width);
    var g1 := Prepared(g, row, col);
    var adjs := Adjacencies((row, col));
    var g2 := VisitAll(g1, mvIdx, stn, adjs);
    assert MakeMoveSpec(g, row, col).forest == g2.forest;
    AdjacenciesAreNeighbours((row, col));
    VisitAllCoarsens(g1, mvIdx, stn, adjs);
    VisitAllJoinsAllies(g1, mvIdx, stn, adjs);
  }

  /// A visit to an on-board enemy neighbour takes the move's index out of the
  /// liberties of that chain's root and clears the neighbour exactly when the
  /// root is left with none; the groups stay as they were.
  lemma VisitAdjacentPresses(g: GameState, mvIdx: nat, stone: Stone, r: nat, c: nat)
    requires Consistent(g) && mvIdx < g.width * g.height && stone != Empty
    requires r < g.height && c < g.width && g.cells[r][c] == Opponent(stone).value
    ensures var res := VisitAdjacent(g, mvIdx, stone, Adjacent(Some(r), Some(c)));
      var root := ChainRoot(g, r, c);
      && SameRoots(g.forest, res.forest)
      && res.libs[root] == g.libs[root] - {mvIdx}
      && (res.cells[r][c] == Empty <==> res.libs[root] == {})
  {
  }

  /// Forests with the same partition give every cell the same chain root.
  lemma ChainRootsAgree(g: GameState, h: GameState, r: nat, c: nat)
    requires Consistent(g) && Consistent(h) && h.width == g.width && h.height == g.height
    requires SameRoots(g.forest, h.forest) && r < g.height && c < g.width
    ensures ChainRoot(h, r, c) == ChainRoot(g, r, c)
  {
    FlatIndexInverse(r, c, g.width, g.height);
  }

  /// No on-board candidate holds the mover's colour, so the loop unites nothing.
  predicate NoAllyAmong(g: GameState, stone: Stone, adjs: seq<Adjacent>)
    requires Consistent(g)
  {
    forall a :: a in adjs && Accepted(a, g.width, g.height) ==> g.cells[a.row.value][a.col.value] != stone
  }

  /// `k` is the chain root of some candidate holding the mover's opponent.
  predicate PressedRoot(g: GameState, stone: Stone, adjs: seq<Adjacent>, k: nat)
    requires Consistent(g) && stone != Empty
  {
    exists r, c :: 0 <= r < g.height && 0 <= c < g.width && Adjacent(Some(r), Some(c)) in adjs &&
      g.cells[r][c] == Opponent(stone).value && ChainRoot(g, r, c) == k
  }

  /// With no friendly neighbour the loop keeps every group, removes the
  /// move's index from the liberties of exactly the enemy neighbours' chain
  /// roots, and clears an enemy neighbour exactly when its chain's root is
  /// left with no liberty.
  lemma {:induction false} VisitAllPresses(g: GameState, mvIdx: nat, stone: Stone, adjs: seq<Adjacent>)
    requires Consistent(g) && mvIdx < g.width * g.height && stone != Empty
    requires NoAllyAmong(g, stone, adjs)
    ensures var res := VisitAll(g, mvIdx, stone, adjs);
      && SameRoots(g.forest, res.forest)
      && (forall k :: 0 <= k < |g.libs| ==> res.libs[k] == g.libs[k] || res.libs[k] == g.libs[k] - {mvIdx})
      && (forall k :: 0 <= k < |g.libs| && !PressedRoot(g, stone, adjs, k) ==> res.libs[k] == g.libs[k])
      && (forall r, c ::
            (0 <= r < g.height && 0 <= c < g.width && Adjacent(Some(r), Some(c)) in adjs &&
             g.cells[r][c] == Opponent(stone).value) ==>
            && res.libs[ChainRoot(g, r, c)] == g.libs[ChainRoot(g, r, c)] - {mvIdx}
            && (res.cells[r][c] == Empty <==> res.libs[ChainRoot(g, r, c)] == {}))
    decreases |adjs|
  {
    if adjs != [] {
      var enemy := Opponent(stone).value;
      var a := adjs[0];
      var next := VisitAdjacent(g, mvIdx, stone, a);
      var res := VisitAll(g, mvIdx, stone, adjs);
      assert res == VisitAll(next, mvIdx, stone, adjs[1..]);
      VisitAdjacentCells(g, mvIdx, stone, a);
      PressStepEffect(g, mvIdx, stone, adjs);
      assert NoAllyAmong(next, stone, adjs[1..]) by {
        forall b | b in adjs[1..] && Accepted(b, g.width, g.height)
          ensures next.cells[b.row.value][b.col.value] != stone
        {
          assert b in adjs;
        }
      }
      VisitAllPresses(next, mvIdx, stone, adjs[1..]);
      UnpressedStays(g, next, res, mvIdx, stone, adjs);
      forall r, c | 0 <= r < g.height && 0 <= c < g.width && Adjacent(Some(r), Some(c)) in adjs &&
          g.cells[r][c] == enemy
        ensures res.libs[ChainRoot(g, r, c)] == g.libs[ChainRoot(g, r, c)] - {mvIdx}
        ensures res.cells[r][c] == Empty <==> res.libs[ChainRoot(g, r, c)] == {}
      {
        PressedNeighbour(g, next, res, mvIdx, stone, adjs, r, c);
      }
    }
  }

  /// What the first visit of the loop does, in the terms of `VisitAllPresses`.
  lemma PressStepEffect(g: GameState, mvIdx: nat, stone: Stone, adjs: seq<Adjacent>)
    requires Consistent(g) && mvIdx < g.width * g.height && stone != Empty
    requires adjs != [] && NoAllyAmong(g, stone, adjs)
    ensures var next := VisitAdjacent(g, mvIdx, stone, adjs[0]);
      && SameRoots(g.forest, next.forest)
      && (forall k :: 0 <= k < |g.libs| ==> next.libs[k] == g.libs[k] || next.libs[k] == g.libs[k] - {mvIdx})
      && (forall k :: 0 <= k < |g.libs| && !PressedRoot(g, stone, adjs, k) ==> next.libs[k] == g.libs[k])
  {
    var a := adjs[0];
    if Accepted(a, g.width, g.height) {
      var r, c := a.row.value, a.col.value;
      assert a in adjs;
      if g.cells[r][c] == Opponent(stone).value {
        assert a == Adjacent(Some(r), Some(c));
        assert PressedRoot(g, stone, adjs, ChainRoot(g, r, c));
      }
    }
  }

  /// A root pressed later in the loop was already pressed from the start:
  /// visits only clear enemy cells and keep every chain root.
  lemma PressedLaterPressedFirst(g: GameState, next: GameState, mvIdx: nat, stone: Stone,
                                 adjs: seq<Adjacent>, k: nat)
    requires Consistent(g) && mvIdx < g.width * g.height && stone != Empty && adjs != []
    requires next == VisitAdjacent(g, mvIdx, stone, adjs[0])
    requires SameRoots(g.forest, next.forest)
    ensures PressedRoot(next, stone, adjs[1..], k) ==> PressedRoot(g, stone, adjs, k)
  {
    if PressedRoot(next, stone, adjs[1..], k) {
      VisitAdjacentCells(g, mvIdx, stone, adjs[0]);
      var r, c :| 0 <= r < g.height && 0 <= c < g.width && Adjacent(Some(r), Some(c)) in adjs[1..] &&
        next.cells[r][c] == Opponent(stone).value && ChainRoot(next, r, c) == k;
      ChainRootsAgree(g, next, r, c);
      assert Adjacent(Some(r), Some(c)) in adjs;
    }
  }

  /// A root no enemy neighbour presses keeps its liberties through the loop.
  lemma UnpressedStays(g: GameState, next: GameState, res: GameState, mvIdx: nat, stone: Stone, adjs: seq<Adjacent>)
    requires Consistent(g) && mvIdx < g.width * g.height && stone != Empty && adjs != []
    requires next == VisitAdjacent(g, mvIdx, stone, adjs[0])
    requires res == VisitAll(next, mvIdx, stone, adjs[1..])
    requires SameRoots(g.forest, next.forest)
    requires forall k :: 0 <= k < |g.libs| && !PressedRoot(g, stone, adjs, k) ==> next.libs[k] == g.libs[k]
    requires forall k :: 0 <= k < |next.libs| && !PressedRoot(next, stone, adjs[1..], k) ==> res.libs[k] == next.libs[k]
    ensures forall k :: 0 <= k < |g.libs| && !PressedRoot(g, stone, adjs, k) ==> res.libs[k] == g.libs[k]
  {
    forall k | 0 <= k < |g.libs| && !PressedRoot(g, stone, adjs, k)
      ensures res.libs[k] == g.libs[k]
    {
      PressedLaterPressedFirst(g, next, mvIdx, stone, adjs, k);
    }
  }

  /// The capture rule for one enemy neighbour, carried across the rest of
  /// the loop.
  lemma PressedNeighbour(g: GameState, next: GameState, res: GameState, mvIdx: nat, stone: Stone,
                         adjs: seq<Adjacent>, r: nat, c: nat)
    requires Consistent(g) && mvIdx < g.width * g.height && stone != Empty && adjs != []
    requires next == VisitAdjacent(g, mvIdx, stone, adjs[0])
    requires res == VisitAll(next, mvIdx, stone, adjs[1..])
    requires SameRoots(g.forest, next.forest)
    requires forall k :: 0 <= k < |g.libs| ==> next.libs[k] == g.libs[k] || next.libs[k] == g.libs[k] - {mvIdx}
    requires forall k :: 0 <= k < |next.libs| ==> res.libs[k] == next.libs[k] || res.libs[k] == next.libs[k] - {mvIdx}
    requires forall r', c' ::
            (0 <= r' < next.height && 0 <= c' < next.width && Adjacent(Some(r'), Some(c')) in adjs[1..] &&
             next.cells[r'][c'] == Opponent(stone).value) ==>
            && res.libs[ChainRoot(next, r', c')] == next.libs[ChainRoot(next, r', c')] - {mvIdx}
            && (res.cells[r'][c'] == Empty <==> res.libs[ChainRoot(next, r', c')] == {})
    requires 0 <= r < g.height && 0 <= c < g.width && Adjacent(Some(r), Some(c)) in adjs
    requires g.cells[r][c] == Opponent(stone).value
    ensures res.libs[ChainRoot(g, r, c)] == g.libs[ChainRoot(g, r, c)] - {mvIdx}
    ensures res.cells[r][c] == Empty <==> res.libs[ChainRoot(g, r, c)] == {}
  {
    var root := ChainRoot(g, r, c);
    ChainRootsAgree(g, next, r, c);
    VisitAllCaptureOnly(next, mvIdx, stone, adjs[1..]);
    var gone := g.libs[root] - {mvIdx};
    assert next.libs[root] == g.libs[root] || next.libs[root] == gone;
    assert next.libs[root] - {mvIdx} == gone;
    if adjs[0] == Adjacent(Some(r), Some(c)) {
      VisitAdjacentPresses(g, mvIdx, stone, r, c);
      assert next.libs[root] == gone;
      assert res.libs[root] == gone;
      if next.cells[r][c] != Empty && Adjacent(Some(r), Some(c)) !in adjs[1..] {
        assert res.cells[r][c] == next.cells[r][c];
      }
    } else {
      assert Adjacent(Some(r), Some(c)) in adjs[1..];
      VisitAdjacentCells(g, mvIdx, stone, adjs[0]);
      assert next.cells[r][c] == g.cells[r][c];
    }
  }

  /// `k` is the chain root of an orthogonal neighbour of `(row, col)` that
  /// holds the opponent of the player to move.
  predicate EnemyNeighbourRoot(g: GameState, row: nat, col: nat, k: nat)
    requires Consistent(g)
  {
    exists r, c :: 0 <= r < g.height && 0 <= c < g.width && Orthogonal((r, c), (row, col)) &&
      g.cells[r][c] == Opponent(ToPlay(g.turn)).value && ChainRoot(g, r, c) == k
  }

  /// `make_move` on an empty cell none of whose neighbours holds the mover's
  /// colour: the groups stay as they were; the move's index leaves the
  /// liberties of the chain root of every enemy neighbour and of no other
  /// root; and an enemy neighbour is cleared exactly when its chain's root
  /// is left with no liberty.
  lemma MakeMoveCaptures(g: GameState, row: nat, col: nat)
    requires Consistent(g) && row < g.height && col < g.width && g.cells[row][col] == Empty
    requires forall r, c :: 0 <= r < g.height && 0 <= c < g.width && Orthogonal((r, c), (row, col)) ==>
      g.cells[r][c] != ToPlay(g.turn)
    ensures FlatIndex(row, col, g.width) < g.width * g.height
    ensures var res := MakeMoveSpec(g, row, col);
      var mvIdx := FlatIndex(row, col, g.width);
      var before := Prepared(g, row, col).libs;
      && SameRoots(g.forest, res.forest)
      && (forall k :: 0 <= k < |g.libs| && !EnemyNeighbourRoot(g, row, col, k) ==> res.libs[k] == before[k])
      && (forall r, c ::
            (0 <= r < g.height && 0 <= c < g.width && Orthogonal((r, c), (row, col)) &&
             g.cells[r][c] == Opponent(ToPlay(g.turn)).value) ==>
            && res.libs[ChainRoot(g, r, c)] == before[ChainRoot(g, r, c)] - {mvIdx}
            && (res.cells[r][c] == Empty <==> res.libs[ChainRoot(g, r, c)] == {}))
  {
    var stn := ToPlay(g.turn);
    var mvIdx := FlatIndex(row, col, g.width);
    var g1 := Prepared(g, row, col);
    var adjs := Adjacencies((row, col));
    var g2 := VisitAll(g1, mvIdx, stn, adjs);
    var res := MakeMoveSpec(g, row, col);
    assert res == g2.(cells := SetCell(g2.cells, row, col, stn), turn := !g2.turn);
    AdjacenciesAreNeighbours((row, col));
    assert NoAllyAmong(g1, stn, adjs) by {
      forall a | a in adjs && Accepted(a, g.width, g.height)
        ensures g1.cells[a.row.value][a.col.value] != stn
      {
        assert a == Adjacent(Some(a.row.value), Some(a.col.value));
      }
    }
    VisitAllPresses(g1, mvIdx, stn, adjs);
    forall r, c | 0 <= r < g.height && 0 <= c < g.width
      ensures ChainRoot(g1, r, c) == ChainRoot(g, r, c)
    {
      ChainRootsAgree(g, g1, r, c);
    }
    forall k | 0 <= k < |g.libs| && !EnemyNeighbourRoot(g, row, col, k)
      ensures res.libs[k] == g1.libs[k]
    {
      PressedRootIsEnemyNeighbour(g, row, col, k);
    }
  }

  /// A root the neighbour loop presses is the chain root of an orthogonal
  /// enemy neighbour.
  lemma PressedRootIsEnemyNeighbour(g: GameState, row: nat, col: nat, k: nat)
    requires Consistent(g) && row < g.height && col < g.width
    ensures PressedRoot(Prepared(g, row, col), ToPlay(g.turn), Adjacencies((row, col)), k) ==>
      EnemyNeighbourRoot(g, row, col, k)
  {
    var g1 := Prepared(g, row, col);
    if PressedRoot(g1, ToPlay(g.turn), Adjacencies((row, col)), k) {
      AdjacenciesAreNeighbours((row, col));
      var r, c :| 0 <= r < g.height && 0 <= c < g.width && Adjacent(Some(r), Some(c)) in Adjacencies((row, col)) &&
        g1.cells[r][c] == Opponent(ToPlay(g.turn)).value && ChainRoot(g1, r, c) == k;
      ChainRootsAgree(g, g1, r, c);
    }
  }

  /// Once the game is over nothing more happens; otherwise it is over after
  /// a run exactly when a quit was among the actions.
  lemma {:induction false} RunEndsOnQuit(g: GameState, inputs: seq<UserAction>)
    requires Consistent(g) && AllOnBoard(inputs, g.width, g.height)
    ensures g.gameOver ==> Run(g, inputs) == g
    ensures Run(g, inputs).gameOver <==> g.gameOver || Quit in inputs
    decreases |inputs|
  {
    if !g.gameOver && inputs != [] {
      var next := UpdateSpec(g, inputs[0]);
      if inputs[0].Move? {
        MakeMoveCells(g, inputs[0].row, inputs[0].col);
      }
      assert next.gameOver <==> inputs[0] == Quit;
      RunEndsOnQuit(next, inputs[1..]);
      assert inputs == [inputs[0]] + inputs[1..];
    }
  }

  /// The actions after the first quit are never taken.
  lemma {:induction false} RunIgnoresAfterQuit(g: GameState, before: seq<UserAction>, after: seq<UserAction>)
    requires Consistent(g) && !g.gameOver && Quit !in before
    requires AllOnBoard(before + [Quit] + after, g.width, g.height)
    ensures AllOnBoard(before, g.width, g.height)
    ensures Run(g, before + [Quit] + after) == Run(g, before).(gameOver := true)
    decreases |before|
  {
    var inputs := before + [Quit] + after;
    assert forall k :: 0 <= k < |before| ==> before[k] == inputs[k];
    if before == [] {
      assert inputs[1..] == after;
      RunEndsOnQuit(g.(gameOver := true), after);
    } else {
      var next := UpdateSpec(g, before[0]);
      if before[0].Move? {
        MakeMoveCells(g, before[0].row, before[0].col);
      }
      assert inputs[1..] == before[1..] + [Quit] + after;
      assert forall k :: 0 <= k < |inputs[1..]| ==> inputs[1..][k] == inputs[k + 1];
      RunIgnoresAfterQuit(next, before[1..], after);
    }
  }

  /// The bounds test as written lets an off-board row through on a board
  /// wider than it is tall: on a 3-wide, 2-high board the move at row 1,
  /// column 0 has the candidate row 2, column 0, which is not skipped
  /// although the board has only rows 0 and 1.
  lemma SwappedBoundsAdmitOffBoardCell()
    ensures InBounds((1, 0), 3, 2)
    ensures Adjacent(Some(2), Some(0)) in Adjacencies((1, 0))
    ensures !SkippedAsWritten(2, 0, 3, 2) && !InBounds((2, 0), 3, 2)
  {
    assert Adjacencies((1, 0))[1] == Adjacent(Some(2), Some(0));
  }

  /// The same test also skips candidates that are on the board: on a
  /// 3-wide, 2-high board the move at row 0, column 1 has the neighbour at
  /// row 0, column 2, which is skipped because its column is not below the
  /// height. A friendly stone there is never united with the move and an
  /// enemy there never loses the liberty.
  lemma SwappedBoundsSkipOnBoardCell()
    ensures InBounds((0, 1), 3, 2) && InBounds((0, 2), 3, 2)
    ensures Adjacent(Some(0), Some(2)) in Adjacencies((0, 1))
    ensures SkippedAsWritten(0, 2, 3, 2) && !Skipped(0, 2, 3, 2)
  {
    assert Adjacencies((0, 1))[3] == Adjacent(Some(0), Some(2));
  }

  /// On a square board the test as written and the corrected one agree.
  lemma SwappedBoundsAgreeOnSquareBoards(adjRow: nat, adjCol: nat, n: nat)
    ensures SkippedAsWritten(adjRow, adjCol, n, n) <==> Skipped(adjRow, adjCol, n, n)
  {
  }
}
