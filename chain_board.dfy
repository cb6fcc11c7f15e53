/// The board of the legacy engine (src/board.rs): the grid of stones plus a
/// list of chains. Placing a stone updates every chain that breathed through
/// its point, starts a chain when no friendly one did, merges the chains that
/// now hold the point, and then clears the stones of every chain left
/// without liberties.
module LegacyBoard {
  import opened Stones
  import opened Grids
  import opened ChainValues

  /// `get_liberties_of_pos(pos)` on a grid: the empty orthogonal neighbours
  /// on the board, in the order left, right, up, down.
  function LibertiesAround(cells: seq<seq<Stone>>, width: nat, height: nat, pos: Pos): (libs: seq<Pos>)
    requires IsGrid(cells, width, height)
  {
    var (row, col) := pos;
    (if col > 0 && InBounds((row, col - 1), width, height) && cells[row][col - 1] == Empty then [(row, col - 1)] else [])
    + (if InBounds((row, col + 1), width, height) && cells[row][col + 1] == Empty then [(row, col + 1)] else [])
    + (if row > 0 && InBounds((row - 1, col), width, height) && cells[row - 1][col] == Empty then [(row - 1, col)] else [])
    + (if InBounds((row + 1, col), width, height) && cells[row + 1][col] == Empty then [(row + 1, col)] else [])
  }

  /// The list holds exactly the empty on-board orthogonal neighbours, each
  /// once, and never the point itself.
  lemma LibertiesAroundExact(cells: seq<seq<Stone>>, width: nat, height: nat, pos: Pos)
    requires IsGrid(cells, width, height)
    ensures var libs := LibertiesAround(cells, width, height, pos);
      && (forall q: Pos :: q in libs <==> InBounds(q, width, height) && Orthogonal(q, pos) && cells[q.0][q.1] == Empty)
      && (forall i, j :: 0 <= i < j < |libs| ==> libs[i] != libs[j])
      && pos !in libs
  {
    LibertiesAroundMembers(cells, width, height, pos);
    LibertiesAroundDistinct(cells, width, height, pos);
  }

  lemma LibertiesAroundMembers(cells: seq<seq<Stone>>, width: nat, height: nat, pos: Pos)
    requires IsGrid(cells, width, height)
    ensures forall q: Pos :: q in LibertiesAround(cells, width, height, pos) <==>
      InBounds(q, width, height) && Orthogonal(q, pos) && cells[q.0][q.1] == Empty
  {
  }

  lemma LibertiesAroundDistinct(cells: seq<seq<Stone>>, width: nat, height: nat, pos: Pos)
    requires IsGrid(cells, width, height)
    ensures var libs := LibertiesAround(cells, width, height, pos);
      forall i, j :: 0 <= i < j < |libs| ==> libs[i] != libs[j]
  {
  }

  predicate GroupOnBoard(c: ChainValue, width: nat, height: nat)
  {
    forall p :: p in c.group ==> InBounds(p, width, height)
  }

  /// Every group lies on the board.
  predicate GroupsOnBoard(chains: seq<ChainValue>, width: nat, height: nat)
  {
    forall k :: 0 <= k < |chains| ==> GroupOnBoard(chains[k], width, height)
  }

  /// The first loop of `place_stone`: each chain with the point among its
  /// liberties is updated with the move.
  function Touch(c: ChainValue, mv: GameMove, libs: seq<Pos>): ChainValue
  {
    if mv.pos in c.liberties then PlaceStoneAndUpdateLiberties(c, mv, libs) else c
  }

  function TouchAll(chains: seq<ChainValue>, mv: GameMove, libs: seq<Pos>): (r: seq<ChainValue>)
    ensures |r| == |chains| && forall k :: 0 <= k < |chains| ==> r[k] == Touch(chains[k], mv, libs)
  {
    seq(|chains|, k requires 0 <= k < |chains| => Touch(chains[k], mv, libs))
  }

  /// A chain of the mover's colour that breathed through the point.
  predicate Ally(c: ChainValue, mv: GameMove)
  {
    c.color == mv.stone && mv.pos in c.liberties
  }

  /// Some chain of the mover's colour had the point as a liberty.
  predicate Joined(chains: seq<ChainValue>, mv: GameMove)
  {
    exists k :: 0 <= k < |chains| && Ally(chains[k], mv)
  }

  /// The chains holding `pos` in their group, in list order.
  function Holding(chains: seq<ChainValue>, pos: Pos): (r: seq<ChainValue>)
    ensures |r| <= |chains|
  {
    if chains == [] then []
    else
      var last := chains[|chains| - 1];
      Holding(chains[..|chains| - 1], pos) + (if pos in last.group then [last] else [])
  }

  /// The chains not holding `pos`, in list order.
  function NotHolding(chains: seq<ChainValue>, pos: Pos): (r: seq<ChainValue>)
    ensures |r| <= |chains|
  {
    if chains == [] then []
    else
      var last := chains[|chains| - 1];
      NotHolding(chains[..|chains| - 1], pos) + (if pos in last.group then [] else [last])
  }

  /// The second loop of `merge_chains_if_needed`: `head` is extended with
  /// each remaining chain in turn; a failed extension is ignored and that
  /// chain is dropped.
  function Absorb(head: ChainValue, rest: seq<ChainValue>): ChainValue
    decreases |rest|
  {
    if rest == [] then head
    else
      var e := ExtendChain(head, rest[0]);
      Absorb(if e.Ok? then e.value else head, rest[1..])
  }

  /// `merge_chains_if_needed(mv)`: the chains holding the point are taken
  /// out and their merge is appended after the others.
  function Merged(chains: seq<ChainValue>, pos: Pos): seq<ChainValue>
  {
    var allies := Holding(chains, pos);
    if allies == [] then chains
    else NotHolding(chains, pos) + [Absorb(allies[0], allies[1..])]
  }

  /// The chain list after `place_stone(mv)`, given the liberty list of the
  /// move.
  function PlacedChains(chains: seq<ChainValue>, mv: GameMove, libs: seq<Pos>): seq<ChainValue>
  {
    Merged(Listed(chains, mv, libs), mv.pos)
  }

  /// The list the first half of `place_stone` hands to the merge: every
  /// chain updated by the move, plus a new chain when no ally took the stone.
  function Listed(chains: seq<ChainValue>, mv: GameMove, libs: seq<Pos>): seq<ChainValue>
  {
    var touched := TouchAll(chains, mv, libs);
    if Joined(chains, mv) then touched else touched + [NewChain(mv, libs)]
  }

  /// The stones of every chain without liberties.
  function DeadStones(chains: seq<ChainValue>): set<Pos>
  {
    set k, p | 0 <= k < |chains| && IsDeadChain(chains[k]) && p in chains[k].group :: p
  }

  /// The grid after the sweep of `update_board_state`.
  function Swept(cells: seq<seq<Stone>>, width: nat, height: nat, dead: set<Pos>): (r: seq<seq<Stone>>)
    requires IsGrid(cells, width, height)
    ensures IsGrid(r, width, height)
    ensures forall row, col :: 0 <= row < height && 0 <= col < width ==>
      r[row][col] == if (row, col) in dead then Empty else cells[row][col]
  {
    seq(height, row requires 0 <= row < height =>
      seq(width, col requires 0 <= col < width => if (row, col) in dead then Empty else cells[row][col]))
  }

  /// Taking out the chains that hold a point splits the list in two: the
  /// holders and the rest, together a permutation of the list.
  lemma {:induction false} HoldingPartition(chains: seq<ChainValue>, pos: Pos)
    ensures multiset(Holding(chains, pos)) + multiset(NotHolding(chains, pos)) == multiset(chains)
    decreases |chains|
  {
    if chains != [] {
      var init := chains[..|chains| - 1];
      var last := chains[|chains| - 1];
      HoldingPartition(init, pos);
      assert chains == init + [last];
      var h, n := Holding(init, pos), NotHolding(init, pos);
      if pos in last.group {
        assert Holding(chains, pos) == h + [last];
        assert multiset(h + [last]) == multiset(h) + multiset{last};
      } else {
        assert NotHolding(chains, pos) == n + [last];
        assert multiset(n + [last]) == multiset(n) + multiset{last};
      }
    }
  }

  /// Growing a prefix by one chain adds it to the holders or to the rest.
  lemma HoldingStep(chains: seq<ChainValue>, k: nat, pos: Pos)
    requires k < |chains|
    ensures Holding(chains[..k + 1], pos) ==
      Holding(chains[..k], pos) + (if pos in chains[k].group then [chains[k]] else [])
    ensures NotHolding(chains[..k + 1], pos) ==
      NotHolding(chains[..k], pos) + (if pos in chains[k].group then [] else [chains[k]])
  {
    assert chains[..k + 1][..k] == chains[..k];
  }

  /// The first element of a tail moves to the end of the head.
  lemma ShiftHead<T>(head: seq<T>, tail: seq<T>)
    requires tail != []
    ensures head + tail == (head + [tail[0]]) + tail[1..]
  {
    assert tail == [tail[0]] + tail[1..];
  }

  /// With no holder the rest is the whole list.
  lemma {:induction false} NoHolderKeepsList(chains: seq<ChainValue>, pos: Pos)
    requires Holding(chains, pos) == []
    ensures NotHolding(chains, pos) == chains
    decreases |chains|
  {
    if chains != [] {
      var init := chains[..|chains| - 1];
      NoHolderKeepsList(init, pos);
      assert chains == init + [chains[|chains| - 1]];
    }
  }

  /// A merged chain keeps the head's colour and stones, and every stone or
  /// liberty it has came from the head or from one of the absorbed chains.
  lemma {:induction false} AbsorbBounds(head: ChainValue, rest: seq<ChainValue>)
    ensures Absorb(head, rest).color == head.color
    ensures head.group <= Absorb(head, rest).group
    ensures forall p :: p in Absorb(head, rest).group ==>
      p in head.group || exists k :: 0 <= k < |rest| && p in rest[k].group
    ensures forall p :: p in Absorb(head, rest).liberties ==>
      p in head.liberties || exists k :: 0 <= k < |rest| && p in rest[k].liberties
    decreases |rest|
  {
    if rest != [] {
      var e := ExtendChain(head, rest[0]);
      var next := if e.Ok? then e.value else head;
      AbsorbBounds(next, rest[1..]);
      assert forall k :: 0 <= k < |rest[1..]| ==> rest[1..][k] == rest[k + 1];
    }
  }

  /// When every absorbed chain has the head's colour nothing is dropped: the
  /// merge holds every stone and every liberty of all of them.
  lemma {:induction false} AbsorbSameColour(head: ChainValue, rest: seq<ChainValue>)
    requires forall k :: 0 <= k < |rest| ==> rest[k].color == head.color
    ensures forall p :: p in Absorb(head, rest).group <==>
      p in head.group || exists k :: 0 <= k < |rest| && p in rest[k].group
    ensures forall p :: p in Absorb(head, rest).liberties <==>
      p in head.liberties || exists k :: 0 <= k < |rest| && p in rest[k].liberties
    decreases |rest|
  {
    if rest != [] {
      var next := ExtendChain(head, rest[0]).value;
      AbsorbSameColour(next, rest[1..]);
      assert forall k :: 0 <= k < |rest[1..]| ==> rest[1..][k] == rest[k + 1];
      forall p | exists k :: 0 <= k < |rest| && p in rest[k].group
        ensures p in Absorb(head, rest).group
      {
        var k :| 0 <= k < |rest| && p in rest[k].group;
        if k > 0 {
          assert p in rest[1..][k - 1].group;
        }
      }
      forall p | exists k :: 0 <= k < |rest| && p in rest[k].liberties
        ensures p in Absorb(head, rest).liberties
      {
        var k :| 0 <= k < |rest| && p in rest[k].liberties;
        if k > 0 {
          assert p in rest[1..][k - 1].liberties;
        }
      }
    }
  }

  /// Merging keeps every group on the board.
  lemma MergedOnBoard(chains: seq<ChainValue>, pos: Pos, width: nat, height: nat)
    requires GroupsOnBoard(chains, width, height)
    ensures GroupsOnBoard(Merged(chains, pos), width, height)
  {
    var allies := Holding(chains, pos);
    var others := NotHolding(chains, pos);
    if allies != [] {
      HoldingComplete(chains, pos);
      var merged := Merged(chains, pos);
      assert merged == others + [Absorb(allies[0], allies[1..])];
      forall k | 0 <= k < |allies|
        ensures GroupOnBoard(allies[k], width, height)
      {
        assert allies[k] in chains;
      }
      AbsorbBounds(allies[0], allies[1..]);
      assert forall k :: 0 <= k < |allies[1..]| ==> allies[1..][k] == allies[k + 1];
      forall k | 0 <= k < |merged|
        ensures GroupOnBoard(merged[k], width, height)
      {
        if k < |others| {
          assert merged[k] == others[k] && others[k] in chains;
        }
      }
    }
  }

  /// The list `place_stone` hands to the merge keeps every group on the
  /// board.
  lemma ListedOnBoard(chains: seq<ChainValue>, mv: GameMove, libs: seq<Pos>, width: nat, height: nat)
    requires GroupsOnBoard(chains, width, height) && InBounds(mv.pos, width, height)
    ensures GroupsOnBoard(TouchAll(chains, mv, libs), width, height)
    ensures GroupsOnBoard(TouchAll(chains, mv, libs) + [NewChain(mv, libs)], width, height)
  {
    var touched := TouchAll(chains, mv, libs);
    forall k | 0 <= k < |chains|
      ensures GroupOnBoard(touched[k], width, height)
    {
      PlaceStoneOutcome(chains[k], mv, libs);
    }
    NewChainShape(mv, libs);
  }

  /// With no chain holding the point there is no holder.
  lemma {:induction false} NoneHeld(chains: seq<ChainValue>, pos: Pos)
    requires forall k :: 0 <= k < |chains| ==> pos !in chains[k].group
    ensures Holding(chains, pos) == []
    decreases |chains|
  {
    if chains != [] {
      NoneHeld(chains[..|chains| - 1], pos);
    }
  }

  /// The holders are exactly the listed chains holding the point.
  lemma {:induction false} HoldingComplete(chains: seq<ChainValue>, pos: Pos)
    ensures forall c :: c in Holding(chains, pos) <==> c in chains && pos in c.group
    ensures forall c :: c in NotHolding(chains, pos) <==> c in chains && pos !in c.group
    decreases |chains|
  {
    if chains != [] {
      var init := chains[..|chains| - 1];
      HoldingComplete(init, pos);
      assert chains == init + [chains[|chains| - 1]];
    }
  }

  /// The last chain of a non-empty list.
  function Last(chains: seq<ChainValue>): ChainValue
    requires |chains| > 0
  {
    chains[|chains| - 1]
  }

  /// `p` is a stone of some chain in the list.
  predicate StoneOfSome(chains: seq<ChainValue>, p: Pos)
  {
    exists k :: 0 <= k < |chains| && p in chains[k].group
  }

  /// `p` is a liberty of some chain in the list.
  predicate LibertyOfSome(chains: seq<ChainValue>, p: Pos)
  {
    exists k :: 0 <= k < |chains| && p in chains[k].liberties
  }

  /// `p` is a stone of some ally of the move.
  predicate StoneOfAlly(chains: seq<ChainValue>, mv: GameMove, p: Pos)
  {
    exists k :: 0 <= k < |chains| && Ally(chains[k], mv) && p in chains[k].group
  }

  /// `p` is a liberty of some ally of the move.
  predicate LibertyOfAlly(chains: seq<ChainValue>, mv: GameMove, p: Pos)
  {
    exists k :: 0 <= k < |chains| && Ally(chains[k], mv) && p in chains[k].liberties
  }

  /// Absorbing a list of chains of one colour into its first one unites all
  /// their stones and all their liberties.
  lemma AbsorbUnion(allies: seq<ChainValue>)
    requires |allies| > 0
    requires forall j :: 0 <= j < |allies| ==> allies[j].color == allies[0].color
    ensures Absorb(allies[0], allies[1..]).color == allies[0].color
    ensures forall p :: p in Absorb(allies[0], allies[1..]).group <==> StoneOfSome(allies, p)
    ensures forall p :: p in Absorb(allies[0], allies[1..]).liberties <==> LibertyOfSome(allies, p)
  {
    var head, rest := allies[0], allies[1..];
    assert forall k :: 0 <= k < |rest| ==> rest[k] == allies[k + 1];
    AbsorbSameColour(head, rest);
    AbsorbBounds(head, rest);
    forall p | StoneOfSome(allies, p)
      ensures p in Absorb(head, rest).group
    {
      var j :| 0 <= j < |allies| && p in allies[j].group;
      if j > 0 {
        assert p in rest[j - 1].group;
      }
    }
    forall p | LibertyOfSome(allies, p)
      ensures p in Absorb(head, rest).liberties
    {
      var j :| 0 <= j < |allies| && p in allies[j].liberties;
      if j > 0 {
        assert p in rest[j - 1].liberties;
      }
    }
  }

  /// The stones and liberties of the holders are those of the listed chains
  /// holding the point.
  lemma HoldersUnion(chains: seq<ChainValue>, pos: Pos)
    ensures forall p :: StoneOfSome(Holding(chains, pos), p) <==>
      exists k :: 0 <= k < |chains| && pos in chains[k].group && p in chains[k].group
    ensures forall p :: LibertyOfSome(Holding(chains, pos), p) <==>
      exists k :: 0 <= k < |chains| && pos in chains[k].group && p in chains[k].liberties
  {
    var allies := Holding(chains, pos);
    HoldingComplete(chains, pos);
    forall p | StoneOfSome(allies, p)
      ensures exists k :: 0 <= k < |chains| && pos in chains[k].group && p in chains[k].group
    {
      var j :| 0 <= j < |allies| && p in allies[j].group;
      assert allies[j] in allies;
      var k :| 0 <= k < |chains| && chains[k] == allies[j];
    }
    forall p | LibertyOfSome(allies, p)
      ensures exists k :: 0 <= k < |chains| && pos in chains[k].group && p in chains[k].liberties
    {
      var j :| 0 <= j < |allies| && p in allies[j].liberties;
      assert allies[j] in allies;
      var k :| 0 <= k < |chains| && chains[k] == allies[j];
    }
    forall k | 0 <= k < |chains| && pos in chains[k].group
      ensures chains[k] in allies
    {
    }
  }

  /// When every chain holding the point has one colour and at least one
  /// does, the merge leaves exactly one holder, appended last after the
  /// other chains in their order, and it has that colour, the union of the
  /// holders' stones and the union of their liberties.
  lemma MergeOfHolders(chains: seq<ChainValue>, pos: Pos, color: Stone)
    requires forall k :: 0 <= k < |chains| && pos in chains[k].group ==> chains[k].color == color
    requires exists k :: 0 <= k < |chains| && pos in chains[k].group
    ensures var m := Merged(chains, pos);
      && |m| > 0 && Holding(m, pos) == [Last(m)] && m[..|m| - 1] == NotHolding(chains, pos)
      && Last(m).color == color
      && (forall p :: p in Last(m).group <==>
            exists k :: 0 <= k < |chains| && pos in chains[k].group && p in chains[k].group)
      && (forall p :: p in Last(m).liberties <==>
            exists k :: 0 <= k < |chains| && pos in chains[k].group && p in chains[k].liberties)
  {
    var allies := Holding(chains, pos);
    var others := NotHolding(chains, pos);
    HoldingComplete(chains, pos);
    var w :| 0 <= w < |chains| && pos in chains[w].group;
    assert chains[w] in allies;
    forall j | 0 <= j < |allies|
      ensures allies[j].color == color
    {
      assert allies[j] in allies;
    }
    AbsorbUnion(allies);
    HoldersUnion(chains, pos);
    var merged := Absorb(allies[0], allies[1..]);
    assert allies[0] in allies;
    assert pos in merged.group;
    var m := Merged(chains, pos);
    assert m == others + [merged];
    assert m[..|m| - 1] == others;
    SoleHolderLast(others, merged, pos);
  }

  /// Appending a holder to a list without one makes it the only holder.
  lemma SoleHolderLast(others: seq<ChainValue>, last: ChainValue, pos: Pos)
    requires forall c :: c in others ==> pos !in c.group
    requires pos in last.group
    ensures Holding(others + [last], pos) == [last]
  {
    var l := others + [last];
    assert l[..|l| - 1] == others;
    forall k | 0 <= k < |others|
      ensures pos !in others[k].group
    {
      assert others[k] in others;
    }
    NoneHeld(others, pos);
  }

  /// What the list handed to the merge looks like when no chain held the
  /// point before: nobody breathes through the point any more, every
  /// holder has the mover's colour, there is at least one holder, and the
  /// holders together hold the point and the stones of the allies and
  /// breathe through the listed points and the allies' liberties.
  lemma ListedShape(chains: seq<ChainValue>, mv: GameMove, libs: seq<Pos>)
    requires forall k :: 0 <= k < |chains| ==> mv.pos !in chains[k].group
    ensures var l := Listed(chains, mv, libs);
      && (forall k :: 0 <= k < |l| ==> mv.pos !in l[k].liberties)
      && (forall k :: 0 <= k < |l| && mv.pos in l[k].group ==> l[k].color == mv.stone)
      && (exists k :: 0 <= k < |l| && mv.pos in l[k].group)
      && (forall p :: StoneOfSome(Holding(l, mv.pos), p) <==> p == mv.pos || StoneOfAlly(chains, mv, p))
      && (forall p :: LibertyOfSome(Holding(l, mv.pos), p) <==>
            p != mv.pos && (p in libs || LibertyOfAlly(chains, mv, p)))
  {
    var l := Listed(chains, mv, libs);
    ListedEntries(chains, mv, libs);
    NewChainShape(mv, libs);
    if Joined(chains, mv) {
      var a :| 0 <= a < |chains| && Ally(chains[a], mv);
      assert mv.pos in l[a].group;
    } else {
      assert mv.pos in l[|chains|].group;
    }
    ListedUnion(chains, mv, libs);
  }

  /// Each listed chain is the updated chain at the same place, and the list
  /// ends with the new chain exactly when no ally took the stone.
  lemma ListedEntries(chains: seq<ChainValue>, mv: GameMove, libs: seq<Pos>)
    requires forall k :: 0 <= k < |chains| ==> mv.pos !in chains[k].group
    ensures var l := Listed(chains, mv, libs);
      && |l| == (if Joined(chains, mv) then |chains| else |chains| + 1)
      && (forall k :: 0 <= k < |chains| ==>
            && mv.pos !in l[k].liberties && l[k].color == chains[k].color
            && (mv.pos in l[k].group <==> Ally(chains[k], mv))
            && (Ally(chains[k], mv) ==>
                  && l[k].group == chains[k].group + {mv.pos}
                  && l[k].liberties == (chains[k].liberties + Points(libs)) - {mv.pos}))
      && (!Joined(chains, mv) ==> l[|chains|] == NewChain(mv, libs))
  {
    var l := Listed(chains, mv, libs);
    var touched := TouchAll(chains, mv, libs);
    forall k | 0 <= k < |chains|
      ensures mv.pos !in touched[k].liberties
      ensures mv.pos in touched[k].group <==> Ally(chains[k], mv)
      ensures Ally(chains[k], mv) ==> touched[k].group == chains[k].group + {mv.pos}
      ensures Ally(chains[k], mv) ==> touched[k].liberties == (chains[k].liberties + Points(libs)) - {mv.pos}
      ensures touched[k].color == chains[k].color
    {
      PlaceStoneOutcome(chains[k], mv, libs);
    }
    assert forall k :: 0 <= k < |touched| ==> l[k] == touched[k];
  }

  /// The holders of the listed chains together hold the point and the
  /// allies' stones, and breathe through the free neighbours and the allies'
  /// liberties.
  lemma ListedUnion(chains: seq<ChainValue>, mv: GameMove, libs: seq<Pos>)
    requires forall k :: 0 <= k < |chains| ==> mv.pos !in chains[k].group
    ensures var l := Listed(chains, mv, libs);
      && (forall p :: StoneOfSome(Holding(l, mv.pos), p) <==> p == mv.pos || StoneOfAlly(chains, mv, p))
      && (forall p :: LibertyOfSome(Holding(l, mv.pos), p) <==>
            p != mv.pos && (p in libs || LibertyOfAlly(chains, mv, p)))
  {
    var l := Listed(chains, mv, libs);
    ListedEntries(chains, mv, libs);
    NewChainShape(mv, libs);
    HoldersUnion(l, mv.pos);
    var n := |chains|;
    if Joined(chains, mv) {
      var a :| 0 <= a < |chains| && Ally(chains[a], mv);
      assert mv.pos in l[a].group;
      forall p | p in libs && p != mv.pos
        ensures LibertyOfSome(Holding(l, mv.pos), p)
      {
        assert p in l[a].liberties;
      }
    } else {
      assert mv.pos in l[n].group;
      forall p | p in libs && p != mv.pos
        ensures LibertyOfSome(Holding(l, mv.pos), p)
      {
        assert p in l[n].liberties;
      }
    }
    forall p | StoneOfAlly(chains, mv, p)
      ensures StoneOfSome(Holding(l, mv.pos), p)
    {
      var k :| 0 <= k < |chains| && Ally(chains[k], mv) && p in chains[k].group;
      assert p in l[k].group;
    }
    forall p | LibertyOfAlly(chains, mv, p) && p != mv.pos
      ensures LibertyOfSome(Holding(l, mv.pos), p)
    {
      var k :| 0 <= k < |chains| && Ally(chains[k], mv) && p in chains[k].liberties;
      assert p in l[k].liberties;
    }
  }


  /// After a stone lands on a point no chain held, `place_stone` leaves
  /// exactly one chain holding the point, last in the list and of the
  /// mover's colour; it is the union of the point and every ally's stones,
  /// and breathes through the free neighbours and the allies' liberties.
  /// No chain keeps the point as a liberty, and the chains not holding it
  /// are the updated chains in their old order.
  lemma PlacedStoneJoinsOneChain(chains: seq<ChainValue>, mv: GameMove, libs: seq<Pos>)
    requires forall k :: 0 <= k < |chains| ==> mv.pos !in chains[k].group
    ensures var r := PlacedChains(chains, mv, libs);
      && |r| > 0 && Holding(r, mv.pos) == [Last(r)]
      && r[..|r| - 1] == NotHolding(Listed(chains, mv, libs), mv.pos)
      && Last(r).color == mv.stone
      && (forall p :: p in Last(r).group <==> p == mv.pos || StoneOfAlly(chains, mv, p))
      && (forall p :: p in Last(r).liberties <==> p != mv.pos && (p in libs || LibertyOfAlly(chains, mv, p)))
      && (forall k :: 0 <= k < |r| ==> mv.pos !in r[k].liberties)
  {
    var l := Listed(chains, mv, libs);
    ListedShape(chains, mv, libs);
    MergeOfHolders(l, mv.pos, mv.stone);
    HoldersUnion(l, mv.pos);
    HoldingComplete(l, mv.pos);
    var r := PlacedChains(chains, mv, libs);
    forall k | 0 <= k < |r|
      ensures mv.pos !in r[k].liberties
    {
      if k < |r| - 1 {
        assert r[k] in NotHolding(l, mv.pos);
      }
    }
  }

  /// Whatever the point held before, the list handed to the merge has some
  /// chain holding the point and no chain breathing through it.
  lemma ListedHoldsPoint(chains: seq<ChainValue>, mv: GameMove, libs: seq<Pos>)
    ensures var l := Listed(chains, mv, libs);
      && (forall k :: 0 <= k < |l| ==> mv.pos !in l[k].liberties)
      && (exists k :: 0 <= k < |l| && mv.pos in l[k].group)
  {
    var l := Listed(chains, mv, libs);
    var touched := TouchAll(chains, mv, libs);
    forall k | 0 <= k < |chains|
      ensures mv.pos !in touched[k].liberties
      ensures Ally(chains[k], mv) ==> mv.pos in touched[k].group
    {
      PlaceStoneOutcome(chains[k], mv, libs);
    }
    NewChainShape(mv, libs);
    if Joined(chains, mv) {
      var a :| 0 <= a < |chains| && Ally(chains[a], mv);
      assert mv.pos in l[a].group;
    } else {
      assert mv.pos in l[|chains|].group;
    }
  }

  /// When some chain holds the point, the merge leaves exactly one holder,
  /// last in the list, with the colour of the first holder.
  lemma MergedSoleHolder(l: seq<ChainValue>, pos: Pos)
    requires Holding(l, pos) != []
    ensures var r := Merged(l, pos);
      && |r| > 0 && Holding(r, pos) == [Last(r)]
      && Last(r).color == Holding(l, pos)[0].color
  {
    var allies := Holding(l, pos);
    var others := NotHolding(l, pos);
    var merged := Absorb(allies[0], allies[1..]);
    HoldingComplete(l, pos);
    AbsorbBounds(allies[0], allies[1..]);
    assert allies[0] in allies;
    SoleHolderLast(others, merged, pos);
  }

  /// A point no chain breathes through is still breathed through by no
  /// chain after the merge.
  lemma MergedKeepsNoLiberty(l: seq<ChainValue>, pos: Pos, q: Pos)
    requires forall k :: 0 <= k < |l| ==> q !in l[k].liberties
    ensures var r := Merged(l, pos);
      forall k :: 0 <= k < |r| ==> q !in r[k].liberties
  {
    var allies := Holding(l, pos);
    if allies != [] {
      var others := NotHolding(l, pos);
      var merged := Absorb(allies[0], allies[1..]);
      HoldingComplete(l, pos);
      AbsorbBounds(allies[0], allies[1..]);
      assert allies[0] in allies;
      forall j | 0 <= j < |allies[1..]|
        ensures q !in allies[1..][j].liberties
      {
        assert allies[1..][j] in allies;
      }
      var r := Merged(l, pos);
      assert r == others + [merged];
      forall k | 0 <= k < |r|
        ensures q !in r[k].liberties
      {
        if k < |others| {
          assert r[k] in others;
        }
      }
    }
  }

  /// On every move, onto a fresh point or not, `place_stone` leaves exactly
  /// one chain holding the point, last in the list, and no chain keeps the
  /// point as a liberty. That chain has the colour of the first listed
  /// chain holding the point, which need not be the mover's.
  lemma PlacedOnAnyPoint(chains: seq<ChainValue>, mv: GameMove, libs: seq<Pos>)
    ensures var l := Listed(chains, mv, libs);
      var r := PlacedChains(chains, mv, libs);
      && Holding(l, mv.pos) != []
      && |r| > 0 && Holding(r, mv.pos) == [Last(r)]
      && Last(r).color == Holding(l, mv.pos)[0].color
      && (forall k :: 0 <= k < |r| ==> mv.pos !in r[k].liberties)
  {
    var l := Listed(chains, mv, libs);
    ListedHoldsPoint(chains, mv, libs);
    HoldingComplete(l, mv.pos);
    var w :| 0 <= w < |l| && mv.pos in l[w].group;
    assert l[w] in Holding(l, mv.pos);
    MergedSoleHolder(l, mv.pos);
    MergedKeepsNoLiberty(l, mv.pos, mv.pos);
  }

  /// The chains that still have a liberty, in list order.
  function Alive(chains: seq<ChainValue>): (r: seq<ChainValue>)
    ensures |r| <= |chains|
    ensures forall c :: c in r <==> c in chains && !IsDeadChain(c)
  {
    if chains == [] then []
    else
      var init := chains[..|chains| - 1];
      assert chains == init + [Last(chains)];
      Alive(init) + (if IsDeadChain(Last(chains)) then [] else [Last(chains)])
  }

  /// `place_stone` as evidently intended: a captured chain has left the
  /// list, so only chains that still have a liberty take part.
  function PlacedChainsPruned(chains: seq<ChainValue>, mv: GameMove, libs: seq<Pos>): seq<ChainValue>
  {
    PlacedChains(Alive(chains), mv, libs)
  }

  /// With captured chains gone, a stone played on a point no living chain
  /// holds always ends up in exactly one chain, last in the list and of the
  /// mover's colour: the point and every ally's stones, breathing through
  /// the free neighbours and the allies' liberties.
  lemma PrunedPlacementKeepsMover(chains: seq<ChainValue>, mv: GameMove, libs: seq<Pos>)
    requires forall k :: 0 <= k < |chains| && !IsDeadChain(chains[k]) ==> mv.pos !in chains[k].group
    ensures var r := PlacedChainsPruned(chains, mv, libs);
      && |r| > 0 && Holding(r, mv.pos) == [Last(r)] && Last(r).color == mv.stone
      && (forall p :: p in Last(r).group <==> p == mv.pos || StoneOfAlly(Alive(chains), mv, p))
      && (forall p :: p in Last(r).liberties <==> p != mv.pos && (p in libs || LibertyOfAlly(Alive(chains), mv, p)))
  {
    var a := Alive(chains);
    forall k | 0 <= k < |a|
      ensures mv.pos !in a[k].group
    {
      assert a[k] in a;
    }
    PlacedStoneJoinsOneChain(a, mv, libs);
  }

  /// Growing a prefix by one chain adds that chain's stones when it is dead.
  lemma DeadStonesExtend(chains: seq<ChainValue>, k: nat)
    requires k < |chains|
    ensures DeadStones(chains[..k + 1]) ==
      DeadStones(chains[..k]) + (if IsDeadChain(chains[k]) then chains[k].group else {})
  {
    var prefix := chains[..k + 1];
    assert forall j :: 0 <= j < k ==> prefix[j] == chains[..k][j];
    if IsDeadChain(chains[k]) {
      forall p | p in chains[k].group
        ensures p in DeadStones(prefix)
      {
        assert prefix[k] == chains[k];
      }
    }
  }

  class Board {
    var state: seq<seq<Stone>>
    var chains: seq<ChainValue>
    const width: nat
    const height: nat

    ghost predicate Valid()
      reads this
    {
      IsGrid(state, width, height) && GroupsOnBoard(chains, width, height)
    }

    /// `Board::new(width, height)`: an empty grid and no chains.
    constructor (width: nat, height: nat)
      ensures Valid() && this.width == width && this.height == height
      ensures state == Filled(width, height, Empty) && chains == []
    {
      this.width := width;
      this.height := height;
      state := Filled(width, height, Empty);
      chains := [];
    }

    /// `get_liberties_of_pos(pos)`.
    function GetLibertiesOfPos(pos: Pos): seq<Pos>
      reads this
      requires Valid()
    {
      LibertiesAround(state, width, height, pos)
    }

    /// `in_bounds(row, col)`.
    predicate WithinBounds(row: nat, col: nat)
      reads this
    {
      col < width && row < height
    }

    /// `stone_at(row, col)`.
    function StoneAt(row: nat, col: nat): Stone
      reads this
      requires Valid() && row < height && col < width
    {
      state[row][col]
    }

    /// `update_board_state(mv)`: place the stone, then clear the stones of
    /// every chain without liberties (dead chains stay in the list).
    method UpdateBoardState(mv: GameMove)
      requires Valid() && InBounds(mv.pos, width, height)
      modifies this
      ensures Valid()
      ensures chains == PlacedChains(old(chains), mv,
        LibertiesAround(SetCell(old(state), mv.pos.0, mv.pos.1, mv.stone), width, height, mv.pos))
      ensures state == Swept(SetCell(old(state), mv.pos.0, mv.pos.1, mv.stone), width, height, DeadStones(chains))
    {
      PlaceStone(mv);
      ghost var placed := state;
      ghost var placedChains := chains;
      for k := 0 to |chains|
        invariant chains == placedChains
        invariant IsGrid(state, width, height)
        invariant forall r, c :: 0 <= r < height && 0 <= c < width ==>
          state[r][c] == if (r, c) in DeadStones(chains[..k]) then Empty else placed[r][c]
      {
        ghost var before := state;
        if IsDeadChain(chains[k]) {
          assert GroupOnBoard(chains[k], width, height);
          ClearGroup(chains[k].group);
        }
        DeadStonesExtend(chains, k);
        assert forall r, c :: 0 <= r < height && 0 <= c < width ==>
          state[r][c] == if (r, c) in (if IsDeadChain(chains[k]) then chains[k].group else {}) then Empty else before[r][c];
      }
      assert chains[..|chains|] == chains;
      GridsEqual(state, Swept(placed, width, height, DeadStones(chains)), width, height);
    }

    /// The inner loop of `update_board_state`: every stone of `group` is
    /// taken off the board, one point at a time.
    method ClearGroup(group: set<Pos>)
      requires IsGrid(state, width, height) && forall p :: p in group ==> InBounds(p, width, height)
      modifies this
      ensures IsGrid(state, width, height) && chains == old(chains)
      ensures forall r, c :: 0 <= r < height && 0 <= c < width ==>
        state[r][c] == if (r, c) in group then Empty else old(state)[r][c]
    {
      var left := group;
      while left != {}
        invariant left <= group && chains == old(chains)
        invariant IsGrid(state, width, height)
        invariant forall r, c :: 0 <= r < height && 0 <= c < width ==>
          state[r][c] == if (r, c) in group - left then Empty else old(state)[r][c]
        decreases left
      {
        var p :| p in left;
        state := state[p.0 := state[p.0][p.1 := Empty]];
        left := left - {p};
      }
    }

    /// `place_stone(mv)`.
    method PlaceStone(mv: GameMove)
      requires Valid() && InBounds(mv.pos, width, height)
      modifies this
      ensures Valid()
      ensures state == SetCell(old(state), mv.pos.0, mv.pos.1, mv.stone)
      ensures chains == PlacedChains(old(chains), mv, LibertiesAround(state, width, height, mv.pos))
    {
      state := state[mv.pos.0 := state[mv.pos.0][mv.pos.1 := mv.stone]];
      var libs := GetLibertiesOfPos(mv.pos);
      var joined := false;
      ghost var chains0 := chains;
      ghost var state0 := state;
      for k := 0 to |chains|
        invariant state == state0
        invariant |chains| == |chains0|
        invariant forall j :: 0 <= j < k ==> chains[j] == Touch(chains0[j], mv, libs)
        invariant forall j :: k <= j < |chains| ==> chains[j] == chains0[j]
        invariant joined <==> exists j :: 0 <= j < k && mv.pos in chains0[j].liberties && chains0[j].color == mv.stone
      {
        if mv.pos in chains[k].liberties {
          PlaceStoneOutcome(chains[k], mv, libs);
          chains := chains[k := PlaceStoneAndUpdateLiberties(chains[k], mv, libs)];
          if chains[k].color == mv.stone {
            joined := true;
          }
        }
      }
      assert chains == TouchAll(chains0, mv, libs);
      if !joined {
        chains := chains + [NewChain(mv, libs)];
      }
      ListedOnBoard(chains0, mv, libs, width, height);
      MergeChainsIfNeeded(mv);
    }

    /// `merge_chains_if_needed(mv)`.
    method MergeChainsIfNeeded(mv: GameMove)
      requires GroupsOnBoard(chains, width, height)
      modifies this
      ensures GroupsOnBoard(chains, width, height) && state == old(state)
      ensures chains == Merged(old(chains), mv.pos)
    {
      ghost var chains0 := chains;
      var allies := TakeHolders(mv.pos);
      if allies != [] {
        var head := AbsorbAll(allies[0], allies[1..]);
        chains := chains + [head];
      } else {
        NoHolderKeepsList(chains0, mv.pos);
      }
      MergedOnBoard(chains0, mv.pos, width, height);
    }

    /// The first loop of `merge_chains_if_needed`: every chain holding `pos`
    /// leaves the list and joins `allies`, both in list order.
    method TakeHolders(pos: Pos) returns (allies: seq<ChainValue>)
      modifies this
      ensures state == old(state)
      ensures chains == NotHolding(old(chains), pos) && allies == Holding(old(chains), pos)
    {
      ghost var chains0 := chains;
      allies := [];
      var i := 0;
      ghost var k := 0;
      while i < |chains|
        invariant state == old(state)
        invariant 0 <= k <= |chains0| && 0 <= i <= |chains|
        invariant chains == NotHolding(chains0[..k], pos) + chains0[k..]
        invariant i == |NotHolding(chains0[..k], pos)|
        invariant allies == Holding(chains0[..k], pos)
        decreases |chains| - i
      {
        ghost var kept := NotHolding(chains0[..k], pos);
        assert chains[..i] == kept && chains[i] == chains0[k] && chains[i + 1..] == chains0[k + 1..];
        HoldingStep(chains0, k, pos);
        if pos in chains[i].group {
          allies := allies + [chains[i]];
          chains := chains[..i] + chains[i + 1..];
          assert chains == kept + chains0[k + 1..];
        } else {
          i := i + 1;
          ShiftHead(kept, chains0[k..]);
          assert chains0[k..][1..] == chains0[k + 1..];
        }
        k := k + 1;
      }
      assert chains0[..k] == chains0;
    }
  }

  /// The second loop of `merge_chains_if_needed`: the first holder is
  /// extended with each other holder in turn.
  method AbsorbAll(first: ChainValue, others: seq<ChainValue>) returns (head: ChainValue)
    ensures head == Absorb(first, others)
  {
    head := first;
    var rest := others;
    while rest != []
      invariant Absorb(head, rest) == Absorb(first, others)
      decreases |rest|
    {
      var e := ExtendChain(head, rest[0]);
      if e.Ok? {
        head := e.value;
      }
      rest := rest[1..];
    }
  }
}
