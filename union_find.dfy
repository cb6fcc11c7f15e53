/// The disjoint-set forest of the current engine (src/game_logic/union_find.rs):
/// parent pointers, union by rank, a size counter per root, and a `find` that
/// halves the path it walks.
module DisjointSets {

  /// The three vectors of the forest, as a value.
  datatype Forest = Forest(parent: seq<nat>, rank: seq<nat>, size: seq<nat>)

  /// The result of a `find`: the rewritten forest and the root reached.
  datatype Found = Found(forest: Forest, root: nat)

  /// The largest rank; the measure under which walking towards a root terminates.
  function MaxOf(s: seq<nat>): (m: nat)
    ensures forall i :: 0 <= i < |s| ==> s[i] <= m
    ensures |s| > 0 ==> exists i :: 0 <= i < |s| && s[i] == m
  {
    if s == [] then 0
    else
      var rest := MaxOf(s[1..]);
      assert forall i :: 1 <= i < |s| ==> s[i] == s[1..][i - 1];
      if s[0] >= rest then s[0]
      else
        assert exists i :: 1 <= i < |s| && s[i] == rest by {
          var j :| 0 <= j < |s[1..]| && s[1..][j] == rest;
          assert s[j + 1] == rest;
        }
        rest
  }

  /// Every pointer stays inside the forest, and every non-root has a
  /// strictly smaller rank than its parent (so following parents ends).
  predicate WellRanked(parent: seq<nat>, rank: seq<nat>)
  {
    && |parent| == |rank|
    && forall i :: 0 <= i < |parent| ==>
         parent[i] < |parent| && (parent[i] != i ==> rank[i] < rank[parent[i]])
  }

  predicate ValidForest(f: Forest)
  {
    WellRanked(f.parent, f.rank) && |f.size| == |f.parent|
  }

  /// The representative reached from `i` by following parent pointers.
  function Root(parent: seq<nat>, rank: seq<nat>, i: nat): (r: nat)
    requires WellRanked(parent, rank) && i < |parent|
    ensures r < |parent| && parent[r] == r
    ensures parent[i] == i ==> r == i
    decreases MaxOf(rank) - rank[i]
  {
    if parent[i] == i then i else Root(parent, rank, parent[i])
  }

  /// `i` and `j` lie in the same set.
  predicate SameSet(f: Forest, i: nat, j: nat)
    requires ValidForest(f) && i < |f.parent| && j < |f.parent|
  {
    Root(f.parent, f.rank, i) == Root(f.parent, f.rank, j)
  }

  /// Every pair connected in `f` is still connected in `g`.
  ghost predicate Coarsens(f: Forest, g: Forest)
    requires ValidForest(f) && ValidForest(g) && |f.parent| == |g.parent|
  {
    forall i, j :: 0 <= i < |f.parent| && 0 <= j < |f.parent| && SameSet(f, i, j) ==> SameSet(g, i, j)
  }

  /// Same partition: every index reaches the same root in both forests.
  ghost predicate SameRoots(f: Forest, g: Forest)
    requires ValidForest(f) && ValidForest(g) && |f.parent| == |g.parent|
  {
    forall i :: 0 <= i < |f.parent| ==> Root(g.parent, g.rank, i) == Root(f.parent, f.rank, i)
  }

  /// `UnionFind::new(n)`: every index its own parent, rank 0, size 0.
  function NewForest(n: nat): (f: Forest)
  {
    Forest(seq(n, i => i), seq(n, i => 0), seq(n, i => 0))
  }

  /// A fresh forest is valid and every index is its own set.
  lemma NewForestIsDiscrete(n: nat)
    ensures ValidForest(NewForest(n)) && |NewForest(n).parent| == n
    ensures forall i :: 0 <= i < n ==> Root(NewForest(n).parent, NewForest(n).rank, i) == i
    ensures forall i :: 0 <= i < n ==> NewForest(n).rank[i] == 0 && NewForest(n).size[i] == 0
  {
  }

  /// Roots do not depend on which valid ranking justifies them.
  lemma {:induction false} RootIgnoresRank(parent: seq<nat>, r1: seq<nat>, r2: seq<nat>, i: nat)
    requires WellRanked(parent, r1) && WellRanked(parent, r2) && i < |parent|
    ensures Root(parent, r1, i) == Root(parent, r2, i)
    decreases MaxOf(r1) - r1[i]
  {
    if parent[i] != i {
      RootIgnoresRank(parent, r1, r2, parent[i]);
    }
  }

  /// One path-halving step: `parent[t] = parent[parent[t]]`.
  function Halve(f: Forest, t: nat): Forest
    requires t < |f.parent| && f.parent[t] < |f.parent|
  {
    f.(parent := f.parent[t := f.parent[f.parent[t]]])
  }

  lemma {:induction false} HalveKeepsRootAt(f: Forest, t: nat, i: nat)
    requires ValidForest(f) && t < |f.parent| && f.parent[t] != t && i < |f.parent|
    requires ValidForest(Halve(f, t))
    ensures Root(Halve(f, t).parent, f.rank, i) == Root(f.parent, f.rank, i)
    decreases MaxOf(f.rank) - f.rank[i]
  {
    var h := Halve(f, t);
    if f.parent[i] == i {
    } else if i == t {
      var p := f.parent[t];
      var gp := f.parent[p];
      HalveKeepsRootAt(f, t, gp);
      assert Root(f.parent, f.rank, p) == Root(f.parent, f.rank, gp);
    } else {
      HalveKeepsRootAt(f, t, f.parent[i]);
    }
  }

  /// Path halving keeps the forest valid and changes no index's root.
  lemma HalveKeepsRoots(f: Forest, t: nat)
    requires ValidForest(f) && t < |f.parent| && f.parent[t] != t
    ensures ValidForest(Halve(f, t)) && SameRoots(f, Halve(f, t))
  {
    var h := Halve(f, t);
    forall i | 0 <= i < |h.parent|
      ensures h.parent[i] < |h.parent| && (h.parent[i] != i ==> h.rank[i] < h.rank[h.parent[i]])
    {
      if i == t {
        var p := f.parent[t];
        if f.parent[p] != p {
          assert f.rank[t] < f.rank[p] < f.rank[f.parent[p]];
        }
      }
    }
    forall i | 0 <= i < |f.parent|
      ensures Root(h.parent, h.rank, i) == Root(f.parent, f.rank, i)
    {
      HalveKeepsRootAt(f, t, i);
    }
  }

  /// `find(x)`: walks from `x` to its root, halving the path on the way.
  /// The root reached is the root of `x`; only parent pointers change, and
  /// every index keeps its root.
  function FindHalving(f: Forest, t: nat): (res: Found)
    requires ValidForest(f) && t < |f.parent|
    ensures ValidForest(res.forest) && |res.forest.parent| == |f.parent|
    ensures res.forest.rank == f.rank && res.forest.size == f.size
    ensures res.root == Root(f.parent, f.rank, t)
    ensures res.root < |f.parent| && res.forest.parent[res.root] == res.root
    ensures SameRoots(f, res.forest)
    ensures forall r :: 0 <= r < |f.parent| && f.parent[r] == r ==> res.forest.parent[r] == r
    decreases MaxOf(f.rank) - f.rank[t]
  {
    if t == f.parent[t] then Found(f, t)
    else
      var h := Halve(f, t);
      HalveKeepsRoots(f, t);
      assert Root(f.parent, f.rank, t) == Root(f.parent, f.rank, f.parent[t]);
      assert Root(f.parent, f.rank, f.parent[t]) == Root(f.parent, f.rank, h.parent[t]);
      FindHalving(h, h.parent[t])
  }

  /// Attaches root `a` under root `b` (parent pointers only).
  function Link(parent: seq<nat>, a: nat, b: nat): seq<nat>
    requires a < |parent|
  {
    parent[a := b]
  }

  lemma {:induction false} LinkRootAt(parent: seq<nat>, rank: seq<nat>, a: nat, b: nat, i: nat)
    requires WellRanked(parent, rank) && a < |parent| && b < |parent| && a != b
    requires parent[a] == a && parent[b] == b && rank[a] < rank[b]
    requires WellRanked(Link(parent, a, b), rank) && i < |parent|
    ensures Root(Link(parent, a, b), rank, i) ==
            if Root(parent, rank, i) == a then b else Root(parent, rank, i)
    decreases MaxOf(rank) - rank[i]
  {
    if parent[i] != i {
      LinkRootAt(parent, rank, a, b, parent[i]);
    }
  }

  /// Grafting a lower-ranked root under another root keeps the ranking valid
  /// and sends exactly the members of `a`'s set to `b`.
  lemma LinkRoots(parent: seq<nat>, rank: seq<nat>, a: nat, b: nat)
    requires WellRanked(parent, rank) && a < |parent| && b < |parent| && a != b
    requires parent[a] == a && parent[b] == b && rank[a] < rank[b]
    ensures WellRanked(Link(parent, a, b), rank)
    ensures forall i :: 0 <= i < |parent| ==>
      Root(Link(parent, a, b), rank, i) == if Root(parent, rank, i) == a then b else Root(parent, rank, i)
  {
    forall i | 0 <= i < |parent|
      ensures Root(Link(parent, a, b), rank, i) == if Root(parent, rank, i) == a then b else Root(parent, rank, i)
    {
      LinkRootAt(parent, rank, a, b, i);
    }
  }

  /// Raising the rank of a root keeps the ranking valid.
  lemma BumpRootRank(parent: seq<nat>, rank: seq<nat>, a: nat)
    requires WellRanked(parent, rank) && a < |parent| && parent[a] == a
    ensures WellRanked(parent, rank[a := rank[a] + 1])
  {
  }

  /// The root that survives `union(x, y)` once both roots are known:
  /// the higher rank wins, and on a tie `root_x` wins.
  function Winner(f: Forest, rx: nat, ry: nat): nat
    requires rx < |f.rank| && ry < |f.rank|
  {
    if f.rank[rx] < f.rank[ry] then ry else rx
  }

  /// The linking half of `union`, once both roots are known: the lower-ranked
  /// root goes under the other; on a tie `root_y` goes under `root_x` and
  /// `rank[root_x]` grows by one; the survivor's size absorbs the loser's.
  function LinkByRank(g: Forest, rx: nat, ry: nat): Forest
    requires ValidForest(g) && rx < |g.parent| && ry < |g.parent|
  {
    if rx == ry then g
    else if g.rank[rx] < g.rank[ry] then
      g.(parent := g.parent[rx := ry], size := g.size[ry := g.size[ry] + g.size[rx]])
    else if g.rank[rx] > g.rank[ry] then
      g.(parent := g.parent[ry := rx], size := g.size[rx := g.size[rx] + g.size[ry]])
    else
      g.(parent := g.parent[ry := rx], rank := g.rank[rx := g.rank[rx] + 1],
         size := g.size[rx := g.size[rx] + g.size[ry]])
  }

  /// `union(x, y)`: find both roots (halving both paths), then link them by rank.
  function Unite(f: Forest, x: nat, y: nat): Forest
    requires ValidForest(f) && x < |f.parent| && y < |f.parent|
  {
    var fx := FindHalving(f, x);
    var fy := FindHalving(fx.forest, y);
    LinkByRank(fy.forest, fx.root, fy.root)
  }

  /// The members of the two sets go to the winner; every other index keeps
  /// its root.
  ghost predicate SendsToWinner(g: Forest, rx: nat, ry: nat, u: Forest)
    requires ValidForest(g) && ValidForest(u) && |u.parent| == |g.parent|
    requires rx < |g.parent| && ry < |g.parent|
  {
    forall i :: 0 <= i < |g.parent| ==>
      Root(u.parent, u.rank, i) ==
        (if Root(g.parent, g.rank, i) in {rx, ry} then Winner(g, rx, ry) else Root(g.parent, g.rank, i))
  }

  /// With unequal ranks the lower-ranked root is grafted under the other.
  lemma LinkByRankUnequal(g: Forest, rx: nat, ry: nat)
    requires ValidForest(g) && rx < |g.parent| && ry < |g.parent|
    requires g.parent[rx] == rx && g.parent[ry] == ry && g.rank[rx] != g.rank[ry]
    ensures ValidForest(LinkByRank(g, rx, ry)) && |LinkByRank(g, rx, ry).parent| == |g.parent|
    ensures SendsToWinner(g, rx, ry, LinkByRank(g, rx, ry))
  {
    if g.rank[rx] < g.rank[ry] {
      LinkRoots(g.parent, g.rank, rx, ry);
    } else {
      LinkRoots(g.parent, g.rank, ry, rx);
    }
  }

  /// On a tie `ry` is grafted under `rx`, whose rank goes up first.
  lemma LinkByRankTie(g: Forest, rx: nat, ry: nat)
    requires ValidForest(g) && rx < |g.parent| && ry < |g.parent| && rx != ry
    requires g.parent[rx] == rx && g.parent[ry] == ry && g.rank[rx] == g.rank[ry]
    ensures ValidForest(LinkByRank(g, rx, ry)) && |LinkByRank(g, rx, ry).parent| == |g.parent|
    ensures SendsToWinner(g, rx, ry, LinkByRank(g, rx, ry))
  {
    var r2 := g.rank[rx := g.rank[rx] + 1];
    BumpRootRank(g.parent, g.rank, rx);
    LinkRoots(g.parent, r2, ry, rx);
    forall i | 0 <= i < |g.parent|
      ensures Root(g.parent, r2, i) == Root(g.parent, g.rank, i)
    {
      RootIgnoresRank(g.parent, r2, g.rank, i);
    }
  }

  /// Linking two roots by rank keeps the forest valid and sends exactly the
  /// members of the two sets to the winner.
  lemma LinkByRankRoots(g: Forest, rx: nat, ry: nat)
    requires ValidForest(g) && rx < |g.parent| && ry < |g.parent|
    requires g.parent[rx] == rx && g.parent[ry] == ry
    ensures ValidForest(LinkByRank(g, rx, ry)) && |LinkByRank(g, rx, ry).parent| == |g.parent|
    ensures SendsToWinner(g, rx, ry, LinkByRank(g, rx, ry))
  {
    if rx == ry {
    } else if g.rank[rx] != g.rank[ry] {
      LinkByRankUnequal(g, rx, ry);
    } else {
      LinkByRankTie(g, rx, ry);
    }
  }

  /// After `union(x, y)` the sets of `x` and `y` are one set whose root is the
  /// higher-ranked of the two old roots (`root_x` on a tie); every other index
  /// keeps its root.
  lemma UnionRoots(f: Forest, x: nat, y: nat)
    requires ValidForest(f) && x < |f.parent| && y < |f.parent|
    ensures ValidForest(Unite(f, x, y)) && |Unite(f, x, y).parent| == |f.parent|
    ensures var rx, ry := Root(f.parent, f.rank, x), Root(f.parent, f.rank, y);
            var u := Unite(f, x, y);
            forall i :: 0 <= i < |f.parent| ==>
              Root(u.parent, u.rank, i) ==
                (if Root(f.parent, f.rank, i) in {rx, ry} then Winner(f, rx, ry) else Root(f.parent, f.rank, i))
  {
    var fx := FindHalving(f, x);
    var fy := FindHalving(fx.forest, y);
    var g := fy.forest;
    LinkByRankRoots(g, fx.root, fy.root);
    forall i | 0 <= i < |f.parent|
      ensures Root(g.parent, g.rank, i) == Root(f.parent, f.rank, i)
    {
      assert Root(fx.forest.parent, fx.forest.rank, i) == Root(f.parent, f.rank, i);
    }
  }

  /// `union(x, y)` joins the two sets, keeps every connection already made and
  /// adds no connection other than between the two sets.
  lemma UnionConnects(f: Forest, x: nat, y: nat)
    requires ValidForest(f) && x < |f.parent| && y < |f.parent|
    ensures ValidForest(Unite(f, x, y)) && |Unite(f, x, y).parent| == |f.parent|
    ensures SameSet(Unite(f, x, y), x, y)
    ensures forall i, j :: 0 <= i < |f.parent| && 0 <= j < |f.parent| ==>
      (SameSet(Unite(f, x, y), i, j) <==>
        SameSet(f, i, j) || (SameSet(f, i, x) && SameSet(f, j, y)) || (SameSet(f, i, y) && SameSet(f, j, x)))
  {
    UnionRoots(f, x, y);
  }

  /// When `x` and `y` already share a root, `union` only halves paths:
  /// ranks, sizes and roots are unchanged.
  lemma UnionSameSetIsNoOp(f: Forest, x: nat, y: nat)
    requires ValidForest(f) && x < |f.parent| && y < |f.parent| && SameSet(f, x, y)
    ensures ValidForest(Unite(f, x, y))
    ensures Unite(f, x, y).rank == f.rank && Unite(f, x, y).size == f.size
    ensures SameRoots(f, Unite(f, x, y))
  {
    var fx := FindHalving(f, x);
    var fy := FindHalving(fx.forest, y);
    assert fx.root == fy.root;
    forall i | 0 <= i < |f.parent|
      ensures Root(fy.forest.parent, fy.forest.rank, i) == Root(f.parent, f.rank, i)
    {
      assert Root(fx.forest.parent, fx.forest.rank, i) == Root(f.parent, f.rank, i);
    }
  }

  /// The bookkeeping of linking roots `rx` and `ry` by rank, from `g` to
  /// `u`: the loser points to the winner, which stays a root; the loser's
  /// rank was not above the winner's; only a tie raises a rank, that of
  /// `rx`, by one; the winner's size becomes the sum of both and no other
  /// size changes.
  predicate LinkedByRank(g: Forest, rx: nat, ry: nat, u: Forest)
  {
    && rx < |g.rank| && ry < |g.rank| && |u.parent| == |g.rank| && |g.size| == |g.rank|
    && var w := Winner(g, rx, ry);
       var l := if w == rx then ry else rx;
       && u.parent[l] == w && u.parent[w] == w
       && g.rank[l] <= g.rank[w]
       && u.rank == (if g.rank[rx] == g.rank[ry] then g.rank[rx := g.rank[rx] + 1] else g.rank)
       && u.size == g.size[w := g.size[w] + g.size[l]]
  }

  /// Linking two distinct roots by rank keeps exactly this bookkeeping.
  lemma LinkByRankBookkeeping(g: Forest, rx: nat, ry: nat)
    requires ValidForest(g) && rx < |g.parent| && ry < |g.parent| && rx != ry
    requires g.parent[rx] == rx && g.parent[ry] == ry
    ensures LinkedByRank(g, rx, ry, LinkByRank(g, rx, ry))
  {
  }

  /// The bookkeeping depends on ranks and sizes only, so it carries over to
  /// any forest with the same ranks and sizes.
  lemma LinkByRankBookkeepingFrom(f: Forest, g: Forest, rx: nat, ry: nat)
    requires ValidForest(g) && rx < |g.parent| && ry < |g.parent| && rx != ry
    requires g.parent[rx] == rx && g.parent[ry] == ry
    requires g.rank == f.rank && g.size == f.size
    ensures LinkedByRank(f, rx, ry, LinkByRank(g, rx, ry))
  {
    LinkByRankBookkeeping(g, rx, ry);
  }

  /// Rank and size bookkeeping of `union` on two different sets: the lower
  /// rank goes under the higher; on a tie only `rank[root_x]` grows, by one;
  /// the surviving root's size becomes the sum of both, and no other size or
  /// rank changes.
  lemma UnionRankAndSize(f: Forest, x: nat, y: nat)
    requires ValidForest(f) && x < |f.parent| && y < |f.parent| && !SameSet(f, x, y)
    ensures LinkedByRank(f, Root(f.parent, f.rank, x), Root(f.parent, f.rank, y), Unite(f, x, y))
  {
    var fx := FindHalving(f, x);
    var fy := FindHalving(fx.forest, y);
    var g := fy.forest;
    var rx, ry := fx.root, fy.root;
    assert rx == Root(f.parent, f.rank, x);
    assert ry == Root(f.parent, f.rank, y) by {
      assert Root(fx.forest.parent, fx.forest.rank, y) == Root(f.parent, f.rank, y);
    }
    assert g.rank == f.rank && g.size == f.size;
    assert g.parent[rx] == rx;
    LinkByRankBookkeepingFrom(f, g, rx, ry);
    assert Unite(f, x, y) == LinkByRank(g, rx, ry);
  }

  /// `connected(x, y)`: both finds, compared.
  function ConnectedIn(f: Forest, x: nat, y: nat): (res: (Forest, bool))
    requires ValidForest(f) && x < |f.parent| && y < |f.parent|
    ensures ValidForest(res.0) && |res.0.parent| == |f.parent| && SameRoots(f, res.0)
    ensures res.0.rank == f.rank && res.0.size == f.size
    ensures res.1 <==> SameSet(f, x, y)
  {
    var fx := FindHalving(f, x);
    var fy := FindHalving(fx.forest, y);
    (fy.forest, fx.root == fy.root)
  }

  /// `connected` is reflexive and symmetric.
  lemma ConnectedReflexiveSymmetric(f: Forest, x: nat, y: nat)
    requires ValidForest(f) && x < |f.parent| && y < |f.parent|
    ensures ConnectedIn(f, x, x).1
    ensures ConnectedIn(f, x, y).1 == ConnectedIn(f, y, x).1
  {
  }

  /// The forest as the source keeps it: three vectors updated in place.
  class UnionFind {
    var parent: seq<nat>
    var rank: seq<nat>
    var size: seq<nat>

    function Model(): Forest
      reads this
    {
      Forest(parent, rank, size)
    }

    ghost predicate Valid()
      reads this
    {
      ValidForest(Model())
    }

    /// `UnionFind::new(board_size)`.
    constructor (boardSize: nat)
      ensures Valid() && Model() == NewForest(boardSize)
    {
      var p: seq<nat> := [];
      for i := 0 to boardSize
        invariant p == seq(i, j => j)
      {
        p := p + [i];
      }
      parent := p;
      rank := seq(boardSize, i => 0);
      size := seq(boardSize, i => 0);
    }

    /// `find`: the while loop that halves the path from `target` to its root.
    method Find(x: nat) returns (root: nat)
      requires Valid() && x < |parent|
      modifies this
      ensures Valid()
      ensures Model() == FindHalving(old(Model()), x).forest
      ensures root == FindHalving(old(Model()), x).root
    {
      var target: nat := x;
      while target != parent[target]
        invariant Valid() && |parent| == |old(parent)| && target < |parent|
        invariant FindHalving(Model(), target) == FindHalving(old(Model()), x)
        decreases MaxOf(rank) - rank[target]
      {
        HalveKeepsRoots(Model(), target);
        parent := parent[target := parent[parent[target]]];
        target := parent[target];
      }
      root := target;
    }

    /// `union`: finds both roots, then links by rank and adds up sizes.
    method Union(x: nat, y: nat)
      requires Valid() && x < |parent| && y < |parent|
      modifies this
      ensures Valid() && Model() == Unite(old(Model()), x, y)
    {
      ghost var f := Model();
      var rootX := Find(x);
      ghost var fx := Model();
      var rootY := Find(y);
      ghost var g := Model();
      assert Unite(f, x, y) == LinkByRank(g, rootX, rootY);
      assert parent[rootX] == rootX;
      LinkByRankRoots(g, rootX, rootY);
      Link(rootX, rootY);
    }

    /// The linking step of `union` once both roots are known: the lower-ranked
    /// root hangs under the other, a tie raises the rank of `rootX`.
    method Link(rootX: nat, rootY: nat)
      requires Valid() && rootX < |parent| && rootY < |parent|
      modifies this
      ensures Model() == LinkByRank(old(Model()), rootX, rootY)
    {
      if rootX == rootY {
        return;
      }
      if rank[rootX] < rank[rootY] {
        parent := parent[rootX := rootY];
        size := size[rootY := size[rootY] + size[rootX]];
      } else if rank[rootX] > rank[rootY] {
        parent := parent[rootY := rootX];
        size := size[rootX := size[rootX] + size[rootY]];
      } else {
        parent := parent[rootY := rootX];
        rank := rank[rootX := rank[rootX] + 1];
        size := size[rootX := size[rootX] + size[rootY]];
      }
    }

    /// `connected`: whether both indices reach the same root.
    method Connected(x: nat, y: nat) returns (b: bool)
      requires Valid() && x < |parent| && y < |parent|
      modifies this
      ensures Valid() && Model() == ConnectedIn(old(Model()), x, y).0
      ensures b == ConnectedIn(old(Model()), x, y).1
    {
      var rootX := Find(x);
      var rootY := Find(y);
      b := rootX == rootY;
    }
  }
}
