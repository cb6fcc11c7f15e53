/// The liberty operations the current controller calls on its union-find
/// (`initialize_liberties_of_pos`, `remove_liberty_from_chain`,
/// `no_liberties`, src/game_logic/game.rs:112-115,:169). Their bodies are not
/// part of this model, so they are stated as a minimal interface: one set of
/// flat indices per forest node, written whole at a stone's own index, and
/// read or shrunk at the root its index resolves to.
module LibertyInterface {
  import opened DisjointSets

  /// `initialize_liberties_of_pos(idx, libs)`: the node's liberty set becomes
  /// exactly the listed indices; no other node's set changes.
  function InitLiberties(libs: seq<set<nat>>, idx: nat, listed: seq<nat>): (r: seq<set<nat>>)
    requires idx < |libs|
    ensures |r| == |libs|
    ensures forall n :: n in r[idx] <==> n in listed
    ensures forall k :: 0 <= k < |libs| && k != idx ==> r[k] == libs[k]
  {
    libs[idx := set n | n in listed]
  }

  datatype Removal = Removal(forest: Forest, libs: seq<set<nat>>)

  /// `remove_liberty_from_chain(idx, lib)`: resolves `idx` to its root
  /// (halving the path) and drops `lib` from that root's set only.
  function RemovedLiberty(f: Forest, libs: seq<set<nat>>, idx: nat, lib: nat): (res: Removal)
    requires ValidForest(f) && idx < |f.parent| && |libs| == |f.parent|
    ensures ValidForest(res.forest) && |res.forest.parent| == |f.parent| && SameRoots(f, res.forest)
    ensures res.forest.rank == f.rank && res.forest.size == f.size
    ensures var root := Root(f.parent, f.rank, idx);
            |res.libs| == |libs| && res.libs[root] == libs[root] - {lib} &&
            forall k :: 0 <= k < |libs| && k != root ==> res.libs[k] == libs[k]
  {
    var found := FindHalving(f, idx);
    Removal(found.forest, libs[found.root := libs[found.root] - {lib}])
  }

  /// `no_liberties(idx)`: whether the set at `idx`'s root is empty.
  function OutOfLiberties(f: Forest, libs: seq<set<nat>>, idx: nat): (res: (Forest, bool))
    requires ValidForest(f) && idx < |f.parent| && |libs| == |f.parent|
    ensures ValidForest(res.0) && |res.0.parent| == |f.parent| && SameRoots(f, res.0)
    ensures res.0.rank == f.rank && res.0.size == f.size
    ensures res.1 <==> libs[Root(f.parent, f.rank, idx)] == {}
  {
    var found := FindHalving(f, idx);
    (found.forest, libs[found.root] == {})
  }

  /// The liberty sets, one per board index, all empty at the start.
  class LibertyTable {
    var sets: seq<set<nat>>

    constructor (n: nat)
      ensures sets == seq(n, _ => {})
    {
      sets := seq(n, _ => {});
    }

    method InitializeLibertiesOfPos(idx: nat, listed: seq<nat>)
      requires idx < |sets|
      modifies this
      ensures sets == InitLiberties(old(sets), idx, listed)
    {
      sets := sets[idx := set n | n in listed];
    }

    method RemoveLibertyFromChain(groups: UnionFind, idx: nat, lib: nat)
      requires groups.Valid() && idx < |groups.parent| && |sets| == |groups.parent|
      modifies this, groups
      ensures groups.Valid()
      ensures var res := RemovedLiberty(old(groups.Model()), old(sets), idx, lib);
              groups.Model() == res.forest && sets == res.libs
    {
      var root := groups.Find(idx);
      sets := sets[root := sets[root] - {lib}];
    }

    method NoLiberties(groups: UnionFind, idx: nat) returns (empty: bool)
      requires groups.Valid() && idx < |groups.parent| && |sets| == |groups.parent|
      modifies groups
      ensures groups.Valid()
      ensures var res := OutOfLiberties(old(groups.Model()), sets, idx);
              groups.Model() == res.0 && empty == res.1
    {
      var root := groups.Find(idx);
      empty := sets[root] == {};
    }
  }
}
