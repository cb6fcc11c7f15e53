/// The chains of the legacy engine (src/chain.rs) as values: the stones of a
/// group, the empty points it breathes through, and its colour.
module ChainValues {
  import opened Stones

  datatype ChainValue = ChainValue(group: set<Pos>, liberties: set<Pos>, color: Stone)

  /// The points of a liberty list, as a set.
  function Points(libs: seq<Pos>): (s: set<Pos>)
    ensures forall p :: p in s <==> p in libs
  {
    set p | p in libs
  }

  /// `remove_liberty(pos)`.
  function RemoveLiberty(c: ChainValue, pos: Pos): (r: ChainValue)
    ensures r.group == c.group && r.color == c.color
    ensures forall p :: p in r.liberties <==> p in c.liberties && p != pos
  {
    c.(liberties := c.liberties - {pos})
  }

  /// `add_stone(mv, libs)`: the stone joins the group, the listed points
  /// join the liberties, and the stone's own point stops being one.
  function AddStone(c: ChainValue, mv: GameMove, libs: seq<Pos>): (r: ChainValue)
    ensures r.color == c.color
    ensures forall p :: p in r.group <==> p in c.group || p == mv.pos
    ensures forall p :: p in r.liberties <==> (p in c.liberties || p in libs) && p != mv.pos
  {
    RemoveLiberty(c.(group := c.group + {mv.pos}, liberties := c.liberties + Points(libs)), mv.pos)
  }

  /// `place_stone_and_update_liberties(mv, libs)`: a stone of the chain's
  /// colour is added to it; any other stone only takes its point away from
  /// the liberties.
  function PlaceStoneAndUpdateLiberties(c: ChainValue, mv: GameMove, libs: seq<Pos>): (r: ChainValue)
  {
    if c.color == mv.stone then AddStone(c, mv, libs) else RemoveLiberty(c, mv.pos)
  }

  /// `Chain::new(mv, libs)`: a group of the one stone, then placed as above.
  function NewChain(mv: GameMove, libs: seq<Pos>): (c: ChainValue)
  {
    PlaceStoneAndUpdateLiberties(ChainValue({mv.pos}, {}, mv.stone), mv, libs)
  }

  /// `is_dead_chain`: no liberty left.
  predicate IsDeadChain(c: ChainValue)
  {
    c.liberties == {}
  }

  /// `extend_chain(other)`: fails when the colours differ; otherwise the
  /// groups and the liberties are united.
  function ExtendChain(c: ChainValue, other: ChainValue): (r: Result<ChainValue>)
  {
    if c.color != other.color then Err("Cannot extend a chain with an opponent stone")
    else Ok(c.(group := c.group + other.group, liberties := c.liberties + other.liberties))
  }

  /// After a placement the placed point is never a liberty of the chain; the
  /// stone is in the group exactly when it has the chain's colour or was
  /// there already; the colour never changes.
  lemma PlaceStoneOutcome(c: ChainValue, mv: GameMove, libs: seq<Pos>)
    ensures var r := PlaceStoneAndUpdateLiberties(c, mv, libs);
      && mv.pos !in r.liberties
      && r.color == c.color
      && (mv.pos in r.group <==> c.color == mv.stone || mv.pos in c.group)
      && (c.color == mv.stone ==> r.group == c.group + {mv.pos} && r.liberties == (c.liberties + Points(libs)) - {mv.pos})
      && (c.color != mv.stone ==> r.group == c.group && r.liberties == c.liberties - {mv.pos})
  {
  }

  /// A new chain holds just the stone, has the stone's colour, and breathes
  /// through the listed points other than its own; it is dead exactly when
  /// no listed point differs from the stone's.
  lemma NewChainShape(mv: GameMove, libs: seq<Pos>)
    ensures var c := NewChain(mv, libs);
      && c.group == {mv.pos} && c.color == mv.stone
      && c.liberties == Points(libs) - {mv.pos}
      && (IsDeadChain(c) <==> forall k :: 0 <= k < |libs| ==> libs[k] == mv.pos)
  {
    var c := NewChain(mv, libs);
    if !IsDeadChain(c) {
      var p :| p in c.liberties;
      var k :| 0 <= k < |libs| && libs[k] == p;
    } else {
      forall k | 0 <= k < |libs|
        ensures libs[k] == mv.pos
      {
        assert libs[k] in Points(libs);
      }
    }
  }

  /// Extending succeeds exactly for equal colours, and then unites the
  /// stones and the liberties and keeps the colour.
  lemma ExtendChainOutcome(c: ChainValue, other: ChainValue)
    ensures ExtendChain(c, other).Ok? <==> c.color == other.color
    ensures ExtendChain(c, other).Ok? ==>
      var r := ExtendChain(c, other).value;
      r.group == c.group + other.group && r.liberties == c.liberties + other.liberties && r.color == c.color
  {
  }

  /// The order of extension does not matter for same-coloured chains, so
  /// the result of merging does not depend on the order of the chain list.
  lemma ExtendChainCommutesAssociates(a: ChainValue, b: ChainValue, c: ChainValue)
    requires a.color == b.color == c.color
    ensures ExtendChain(a, b).Ok? && ExtendChain(b, a).Ok?
    ensures ExtendChain(a, b).value == ExtendChain(b, a).value
    ensures ExtendChain(ExtendChain(a, b).value, c).Ok? && ExtendChain(b, c).Ok?
    ensures ExtendChain(ExtendChain(a, b).value, c) == ExtendChain(a, ExtendChain(b, c).value)
  {
    assert a.group + b.group + c.group == a.group + (b.group + c.group);
    assert a.liberties + b.liberties + c.liberties == a.liberties + (b.liberties + c.liberties);
  }
}

/// The chain object of the legacy engine (src/chain.rs), whose methods
/// update its three fields in place.
module Chains {
  import opened Stones
  import ChainValues

  class Chain {
    var group: set<Pos>
    var liberties: set<Pos>
    var color: Stone

    function Value(): ChainValues.ChainValue
      reads this
    {
      ChainValues.ChainValue(group, liberties, color)
    }

    /// `Chain::new(mv, libs)`.
    constructor (mv: GameMove, libs: seq<Pos>)
      ensures Value() == ChainValues.NewChain(mv, libs)
    {
      group := {mv.pos};
      liberties := {};
      color := mv.stone;
      new;
      PlaceStoneAndUpdateLiberties(mv, libs);
    }

    method PlaceStoneAndUpdateLiberties(mv: GameMove, libs: seq<Pos>)
      modifies this
      ensures Value() == ChainValues.PlaceStoneAndUpdateLiberties(old(Value()), mv, libs)
    {
      if color == mv.stone {
        AddStone(mv, libs);
      } else {
        RemoveLiberty(mv.pos);
      }
    }

    predicate IsDeadChain()
      reads this
    {
      liberties == {}
    }

    /// `extend_chain(other)`: `other` is consumed; on a colour mismatch
    /// nothing changes and an error is returned.
    method ExtendChain(other: Chain) returns (r: Result<()>)
      requires other != this
      modifies this
      ensures var e := ChainValues.ExtendChain(old(Value()), other.Value());
        && (r.Ok? <==> e.Ok?)
        && Value() == (if e.Ok? then e.value else old(Value()))
    {
      if color != other.color {
        return Err("Cannot extend a chain with an opponent stone");
      }
      group := group + other.group;
      liberties := liberties + other.liberties;
      return Ok(());
    }

    method AddStone(mv: GameMove, libs: seq<Pos>)
      modifies this
      ensures Value() == ChainValues.AddStone(old(Value()), mv, libs)
    {
      group := group + {mv.pos};
      liberties := liberties + set p | p in libs;
      RemoveLiberty(mv.pos);
    }

    method RemoveLiberty(pos: Pos)
      modifies this
      ensures Value() == ChainValues.RemoveLiberty(old(Value()), pos)
    {
      liberties := liberties - {pos};
    }
  }
}
