# rust-go, modelled in Dafny

The repository is a small Go (the board game) engine in Rust, in three generations:

- **The current engine** (`src/game_logic/`). A `Board` is a grid of stones with no rules in it. `UnionFind` is a disjoint-set forest over the flat cell indices, with union by rank, a size counter and path halving. The `Game` controller checks that the target cell is empty. It records the move's liberties, then visits the four orthogonal neighbours: a friendly stone is united with the move, and an enemy stone's chain loses the move's point as a liberty. When that chain has no liberty left, only that one neighbouring cell is cleared; the chain's other stones stay on the board. Then it places the stone and passes the turn.
- **The legacy engine** (`src/board.rs`, `src/chain.rs`, `src/game.rs`). The board keeps a list of `Chain`s, each holding a set of stones, a set of liberties and a colour. Placing a stone updates every chain that breathed through that point. A new chain is started when no friendly chain took the stone. The chains now holding the point are merged, and the stones of every chain without liberties are swept off the grid.
- **The move parsers.** Two of them belong to the current crate: `src/ui.rs` works on the text as handed over, and `src/ui/mod.rs` trims it first. Two belong to the older `go/` crate: `go/src/ui.rs`, and the column-first one in `go/src/game.rs`. The `go/` crate also has its own `Board` of `Option<Stone>` cells addressed `(x, y)`, and a `Game` whose `make_move` parses a line and builds the move record.

Every object whose methods update fields in place is a Dafny `class` with those fields:

- `UnionFind`, the liberty table, the three `Board`s (modules GridBoard, LegacyBoard and GoBoard), `Chain`, and the three `Game`s.
- The sequence fields are reassigned by the methods.
- Each method's `ensures` ties its new state to a pure function of the old state.

The properties are proved as lemmas about those functions. Examples:

- `find` keeps every index's root.
- `union` joins exactly the two sets.
- A move clears only orthogonal enemy stones, and clears one exactly when its chain is left without liberties.
- A legacy move leaves exactly one chain holding the new stone, but that chain can be a dead one of the other colour.
- Every on-board position is parsed back from its spelling.

Files:

| file | module | models |
|---|---|---|
| stone.dfy | Stones | stones, moves, turn colour, `get_opponent` |
| grid.dfy | Grids | row-major grids and the flat index |
| union_find.dfy | DisjointSets | src/game_logic/union_find.rs |
| grid_board.dfy | GridBoard | src/game_logic/board.rs |
| liberties.dfy | LibertyInterface | the liberty calls made by src/game_logic/game.rs |
| controller.dfy, controller_facts.dfy | Controller, ControllerFacts | src/game_logic/game.rs |
| controller_scenarios.dfy | ControllerScenarios | the game tests of src/game_logic/game.rs, replayed move by move |
| chain.dfy | ChainValues, Chains | src/chain.rs |
| chain_board.dfy | LegacyBoard | src/board.rs |
| legacy_game.dfy | LegacyGame | src/game.rs |
| legacy_scenarios.dfy | LegacyScenarios | a legacy game in which a captured chain takes back its point |
| text.dfy | Text | `trim`, ASCII upper-casing and UTF-8 length as the parsers use them |
| move_parsers.dfy | MoveParsers | src/ui.rs, src/ui/mod.rs |
| go_parsers.dfy | GoParsers | go/src/ui.rs, go/src/game.rs |
| go_board.dfy | GoBoard | go/src/board.rs |
| go_game.dfy | GoGame | go/src/game.rs |

## Model

| member | source | states |
|---|---|---|
| Stones.ToPlay | src/game_logic/game.rs:131-135 | the mover is never Empty; Black exactly while `turn` holds |
| Stones.Opponent | src/game_logic/stone.rs:28-34 | Empty has no opponent; a played colour's opponent is the other played colour |
| Stones.OpponentInvolutive | src/game_logic/stone.rs:28-34 | the opponent of the opponent of a played colour is that colour |
| Grids.Filled | src/game_logic/board.rs:37 | `vec![vec![v; w]; h]` is `h` rows of `w` cells, each `v` |
| Grids.SetCell | src/game_logic/board.rs:60 | overwriting one cell keeps the shape, stores the value there and changes no other cell |
| Grids.FlatIndexInverse | src/game_logic/board.rs:49-53 | inside the board, `row * width + col` is below `width * height` and gives back row and column by division and remainder |
| Grids.FlatIndexInjective | src/game_logic/board.rs:49-53 | distinct cells get distinct union-find nodes |
| DisjointSets.Root | src/game_logic/union_find.rs:23-29 | following parents from any node ends at a node that is its own parent |
| DisjointSets.Halve | src/game_logic/union_find.rs:25 | one halving step; `HalveKeepsRoots` proves it keeps the ranks valid and every index's root |
| DisjointSets.Link | src/game_logic/union_find.rs:41 | grafts one root under another; `LinkRoots` proves it moves exactly that root's members |
| DisjointSets.LinkByRank | src/game_logic/union_find.rs:35-53 | the linking half of `union`; `LinkByRankRoots` and `LinkByRankBookkeeping` prove which root wins, whose members move, and how ranks and sizes change |
| DisjointSets.Unite | src/game_logic/union_find.rs:31-54 | both finds, then the link; `UnionConnects` proves it connects exactly the two sets and `UnionRoots` which root they share |
| DisjointSets.NewForestIsDiscrete | src/game_logic/union_find.rs:11-21 | a new forest is valid, every index is its own root, and all ranks and sizes are 0 |
| DisjointSets.HalveKeepsRoots | src/game_logic/union_find.rs:25 | one halving step keeps ranks valid and changes no index's root |
| DisjointSets.FindHalving | src/game_logic/union_find.rs:23-29 | `find` returns the root of its argument; it changes only parent pointers, keeps every index's root, and every root stays its own parent |
| DisjointSets.LinkRoots | src/game_logic/union_find.rs:41 | grafting a lower-ranked root under another root moves exactly that root's members |
| DisjointSets.BumpRootRank | src/game_logic/union_find.rs:50 | raising a root's rank keeps the forest well ranked |
| DisjointSets.LinkByRankUnequal | src/game_logic/union_find.rs:39-47 | with unequal ranks, linking keeps the forest valid, sends the members of both sets to the higher-ranked root, and leaves every other index's root alone |
| DisjointSets.LinkByRankTie | src/game_logic/union_find.rs:48-52 | on a tie, linking keeps the forest valid, sends the members of both sets to `root_x`, and leaves every other index's root alone |
| DisjointSets.LinkByRankRoots | src/game_logic/union_find.rs:35-53 | for any two roots, linking keeps the forest valid and sends exactly the members of both sets to the winner |
| DisjointSets.UnionRoots | src/game_logic/union_find.rs:31-54 | after `union(x, y)` both sets share the higher-ranked old root (`root_x` on a tie); every other index keeps its root |
| DisjointSets.UnionConnects | src/game_logic/union_find.rs:31-54 | `union` connects x and y, keeps every connection, and adds none except between the two sets |
| DisjointSets.UnionSameSetIsNoOp | src/game_logic/union_find.rs:35-37 | on an already connected pair, ranks, sizes and roots stay as they were |
| DisjointSets.LinkByRankBookkeeping | src/game_logic/union_find.rs:39-53 | the loser points to the winner, which stays a root; the loser's rank was not above the winner's; only a tie raises a rank, that of `root_x`; the winner's size is the sum and no other size changes |
| DisjointSets.LinkByRankBookkeepingFrom | src/game_logic/union_find.rs:39-53 | the same bookkeeping holds relative to any forest with the same ranks and sizes, such as the one before the finds |
| DisjointSets.UnionRankAndSize | src/game_logic/union_find.rs:31-53 | on two separate sets, `union` keeps that bookkeeping relative to the forest before the call, with the roots of x and y |
| DisjointSets.ConnectedIn | src/game_logic/union_find.rs:56-58 | `connected` answers exactly whether the two share a root; only parent pointers change |
| DisjointSets.ConnectedReflexiveSymmetric | src/game_logic/union_find.rs:56-58 | `connected` is reflexive and symmetric |
| DisjointSets.UnionFind.constructor | src/game_logic/union_find.rs:11-21 | the vectors built by the loop are the discrete forest |
| DisjointSets.UnionFind.Find | src/game_logic/union_find.rs:23-29 | the halving loop leaves the forest and root that the path-halving definition gives |
| DisjointSets.UnionFind.Union | src/game_logic/union_find.rs:31-54 | the in-place union is `Unite` of the old forest and keeps it valid |
| DisjointSets.UnionFind.Link | src/game_logic/union_find.rs:35-53 | the in-place rank comparison and updates leave `LinkByRank` of the old forest |
| DisjointSets.UnionFind.Connected | src/game_logic/union_find.rs:56-58 | the in-place query agrees with `ConnectedIn` |
| GridBoard.Board.constructor | src/game_logic/board.rs:35-41 | a new board is `height` rows of `width` empty cells |
| GridBoard.Board.GetState | src/game_logic/board.rs:44-46 | the row slices hold exactly the board's stones |
| GridBoard.Board.IndexOfPos | src/game_logic/board.rs:49-53 | on the board, the index is a node of the `width * height` union-find |
| GridBoard.Board.IndexOfPosRoundTrip | src/game_logic/board.rs:49-53 | on the board, the index gives back the position |
| GridBoard.Board.PlaceStone | src/game_logic/board.rs:56-61 | the cell gets the move's stone whatever it held; no other cell changes |
| GridBoard.Board.StoneAt | src/game_logic/board.rs:64-66 | the stone in row `row`, column `col` |
| LibertyInterface.InitLiberties | src/game_logic/game.rs:168-169 | the move's node gets exactly the listed indices; no other node changes |
| LibertyInterface.RemovedLiberty | src/game_logic/game.rs:111-112 | the liberty leaves the set of the index's root only; roots are kept |
| LibertyInterface.OutOfLiberties | src/game_logic/game.rs:115 | answers whether the root's set is empty; roots are kept |
| LibertyInterface.LibertyTable.constructor | src/game_logic/game.rs:35 | one empty liberty set per board cell |
| LibertyInterface.LibertyTable.InitializeLibertiesOfPos | src/game_logic/game.rs:168-169 | the table becomes `InitLiberties` of the old table |
| LibertyInterface.LibertyTable.RemoveLibertyFromChain | src/game_logic/game.rs:111-112 | forest and table become `RemovedLiberty` of the old ones |
| LibertyInterface.LibertyTable.NoLiberties | src/game_logic/game.rs:115 | forest and answer are those of `OutOfLiberties` |
| Controller.Adjacencies | src/game_logic/game.rs:90-95 | four candidates: up, down, left, right |
| Controller.AdjacenciesAreNeighbours | src/game_logic/game.rs:90-97 | the candidates with both coordinates are exactly the orthogonal neighbours |
| Controller.NeighbourCellsMembers | src/game_logic/game.rs:160-167 | a position is kept exactly when a candidate names it and it is on the board |
| Controller.Skipped | src/game_logic/game.rs:98 | the corrected skip test: a row at or past the height or a column at or past the width; `SwappedBoundsAgreeOnSquareBoards`, `SwappedBoundsAdmitOffBoardCell` and `SwappedBoundsSkipOnBoardCell` relate it to the test as written |
| Controller.Accepted | src/game_logic/game.rs:97-100 | a candidate with both coordinates that the corrected test keeps; `NeighbourCellsMembers` proves these are exactly the on-board neighbours |
| Controller.LibertyList | src/game_logic/game.rs:149-170 | the indices `create_libs` collects; `LibertyListExact` proves they are exactly the on-board orthogonal neighbours' indices, and `SmallBoardLibertyLists` gives the 3-by-3 values |
| Controller.NewGameState | src/game_logic/game.rs:33-44 | empty board, discrete forest of `width * height` nodes, Black to move, no moves, not over |
| Controller.JoinStep | src/game_logic/game.rs:106-108 | a friendly neighbour changes only the forest |
| Controller.PressStep | src/game_logic/game.rs:109-119 | the enemy neighbour's root set loses the move's index and no other set changes; its cell becomes Empty exactly when that set is left empty (or it was Empty already); no other cell, no root and nothing else changes |
| Controller.VisitAdjacent | src/game_logic/game.rs:96-121 | one loop pass keeps the board shape, the turn and the counters |
| Controller.VisitAll | src/game_logic/game.rs:96-122 | the whole loop keeps the board shape, the turn and the counters |
| Controller.Prepared | src/game_logic/game.rs:136-138 | the counter grows and the move's liberty list is recorded; cells, groups, turn, size and the game-over flag stay |
| Controller.MakeMoveSpec | src/game_logic/game.rs:127-143 | a move keeps the board consistent and its dimensions, and never ends the game |
| Controller.UpdateSpec | src/game_logic/game.rs:61-70 | every action keeps the board consistent and its dimensions |
| Controller.Run | src/game_logic/game.rs:49-57 | any run of actions keeps the board consistent and its dimensions |
| Controller.Game.NewGame | src/game_logic/game.rs:33-44 | the new controller's state is `NewGameState` |
| Controller.Game.IsValidMove | src/game_logic/game.rs:74-76 | the target cell is empty; `MakeMoveCells` proves that an occupied target changes nothing |
| Controller.Game.CreateLibs | src/game_logic/game.rs:149-170 | the loop records `LibertyList` at the move's own index; nothing else changes |
| Controller.Game.PressEnemy | src/game_logic/game.rs:109-119 | the enemy branch changes the state as `PressStep` says |
| Controller.Game.VisitCandidate | src/game_logic/game.rs:97-121 | one pass changes the state as `VisitAdjacent` says |
| Controller.Game.UpdateBoard | src/game_logic/game.rs:88-123 | the loop over the four candidates changes the state as `VisitAll` says |
| Controller.Game.MakeMove | src/game_logic/game.rs:127-143 | the new state is `MakeMoveSpec` of the old |
| Controller.Game.Update | src/game_logic/game.rs:61-70 | the new state is `UpdateSpec` of the old |
| Controller.Game.StartGame | src/game_logic/game.rs:49-57 | the loop leaves the state `Run` gives on the actions read |
| ControllerFacts.LibertyListExact | src/game_logic/game.rs:149-170 | the liberty list holds exactly the indices of the on-board orthogonal neighbours, all valid nodes, never the move's own |
| ControllerFacts.VisitAdjacentCells | src/game_logic/game.rs:104-119 | one visit changes at most the visited cell, and only from the opponent's stone to empty |
| ControllerFacts.VisitAdjacentCoarsens | src/game_logic/game.rs:106-119 | one visit never separates connected nodes |
| ControllerFacts.VisitAllCoarsens | src/game_logic/game.rs:96-122 | the whole loop never separates connected nodes |
| ControllerFacts.VisitAllCaptureOnly | src/game_logic/game.rs:96-122 | the loop clears only visited enemy cells and changes no other cell |
| ControllerFacts.VisitAllJoinsAllies | src/game_logic/game.rs:106-108 | every visited neighbour of the mover's colour ends in the mover's set |
| ControllerFacts.VisitAdjacentPresses | src/game_logic/game.rs:109-119 | visiting an enemy neighbour keeps every root, takes the move's index out of that neighbour's root set, and clears the cell exactly when the set is left empty |
| ControllerFacts.VisitAllPresses | src/game_logic/game.rs:96-122 | with no friendly candidate, the loop keeps every root; each set loses at most the move's index, and only an enemy neighbour's set changes; every visited enemy neighbour's set loses the move's index and its cell is cleared exactly when that set is left empty |
| ControllerFacts.MakeMoveCaptures | src/game_logic/game.rs:127-143 | after a move with no friendly orthogonal neighbour, roots are kept; sets of roots of no enemy neighbour are as `create_libs` left them; each orthogonal enemy's root set loses the move's index and its cell is cleared exactly when that set is empty |
| ControllerFacts.MakeMoveCells | src/game_logic/game.rs:127-143 | an occupied target changes nothing. Otherwise the mover's stone lands, the counter grows by one and the turn passes; other cells change only where an orthogonal enemy stone is cleared (`MakeMoveCaptures` says when one is) |
| ControllerFacts.MakeMoveGroups | src/game_logic/game.rs:127-143 | a move splits no group and joins every orthogonal friendly stone to the new stone |
| ControllerFacts.RunEndsOnQuit | src/game_logic/game.rs:49-70 | a finished game stays unchanged; a run ends the game exactly when a Quit was read |
| ControllerFacts.RunIgnoresAfterQuit | src/game_logic/game.rs:49-57 | the actions after the first Quit are never taken |
| ControllerFacts.SwappedBoundsAdmitOffBoardCell | src/game_logic/game.rs:98 | on a 3-wide, 2-high board the check as written lets row 2 through |
| ControllerFacts.SwappedBoundsSkipOnBoardCell | src/game_logic/game.rs:98 | on a 3-wide, 2-high board the test as written skips the on-board neighbour (0, 2) of the move (0, 1), which the corrected test keeps |
| ControllerFacts.SwappedBoundsAgreeOnSquareBoards | src/game_logic/game.rs:162 | on square boards the check as written equals the corrected one |
| ControllerScenarios.SmallBoardLibertyLists | src/game_logic/game.rs:149-170 | the listed liberties of the corner, edge and centre points of a 3-by-3 board |
| ControllerScenarios.NewGameIsFresh | src/game_logic/game.rs:33-44 | a new 3-by-3 game is empty, its forest discrete, its liberty sets empty, Black to move |
| ControllerScenarios.QuietMove | src/game_logic/game.rs:127-143 | with a discrete forest, a move whose neighbours are all empty places the stone, passes the turn, keeps the forest discrete and leaves the liberty sets as `create_libs` wrote them |
| ControllerScenarios.EnemyMove | src/game_logic/game.rs:88-143 | with a discrete forest, a move next to exactly one enemy stone takes its index out of that stone's set, places the stone, and clears the enemy cell exactly when the set is left empty |
| ControllerScenarios.CorrectLibertyAssignments | src/game_logic/game.rs:263-280 | after (0, 0), (1, 1), (2, 2) on a new 3-by-3 game the sets at 0, 4 and 8 are {1, 3}, {1, 3, 5, 7} and {5, 7}, as the test expects |
| ControllerScenarios.DeadCornerStone | src/game_logic/game.rs:243-260 | after (0, 0), (0, 1), (2, 2), (1, 0) on a new 3-by-3 game the Black corner stone is captured and the grid is the one the test expects |
| ChainValues.RemoveLiberty | src/chain.rs:50-52 | the point stops being a liberty; stones and colour are kept |
| ChainValues.AddStone | src/chain.rs:44-48 | the stone joins the group; the listed points become liberties except the stone's own |
| ChainValues.NewChain | src/chain.rs:12-20 | the chain of one stone; `NewChainShape` proves its stones, colour and liberties and when it is dead |
| ChainValues.PlaceStoneAndUpdateLiberties | src/chain.rs:22-28 | `PlaceStoneOutcome` proves the point is never a liberty afterwards and the stone joins exactly a chain of its colour |
| ChainValues.IsDeadChain | src/chain.rs:30-32 | no liberty left; `NewChainShape` proves a new chain is dead exactly when it has no listed point but its own |
| ChainValues.ExtendChain | src/chain.rs:34-42 | `ExtendChainOutcome` proves it succeeds exactly for equal colours and then unites stones and liberties |
| ChainValues.PlaceStoneOutcome | src/chain.rs:22-28 | the placed point is never a liberty afterwards; the stone joins exactly a chain of its colour |
| ChainValues.NewChainShape | src/chain.rs:12-20 | a new chain is the one stone, in its colour, breathing through the listed points other than its own; it is dead exactly when none differ |
| ChainValues.ExtendChainOutcome | src/chain.rs:34-42 | extending succeeds exactly for equal colours, and then unites stones and liberties |
| ChainValues.ExtendChainCommutesAssociates | src/chain.rs:34-42 | for one colour, extension is commutative and associative |
| Chains.Chain.constructor | src/chain.rs:12-20 | the new object holds `NewChain` |
| Chains.Chain.PlaceStoneAndUpdateLiberties | src/chain.rs:22-28 | the fields become `PlaceStoneAndUpdateLiberties` of the old value |
| Chains.Chain.ExtendChain | src/chain.rs:34-42 | on a colour mismatch an error and no change; otherwise the united chain |
| Chains.Chain.AddStone | src/chain.rs:44-48 | the fields become `AddStone` of the old value |
| Chains.Chain.RemoveLiberty | src/chain.rs:50-52 | the fields become `RemoveLiberty` of the old value |
| LegacyBoard.LibertiesAroundExact | src/board.rs:31-57 | the list holds exactly the empty on-board orthogonal neighbours, each once, never the point |
| LegacyBoard.LibertiesAroundMembers | src/board.rs:36-54 | a point is listed exactly when it is an empty on-board orthogonal neighbour |
| LegacyBoard.LibertiesAroundDistinct | src/board.rs:36-54 | no point is listed twice |
| LegacyBoard.LibertiesAround | src/board.rs:31-57 | the liberty list of a point; `LibertiesAroundExact` proves it holds exactly the empty on-board orthogonal neighbours, once each |
| LegacyBoard.Touch | src/board.rs:80-88 | a chain breathing through the point is updated with the move, any other is kept; `ListedEntries` states the outcome |
| LegacyBoard.Listed | src/board.rs:78-93 | the updated chains plus a new one when no ally took the stone; `ListedEntries` and `ListedHoldsPoint` state its entries |
| LegacyBoard.Absorb | src/board.rs:113-117 | the extension loop; `AbsorbBounds`, `AbsorbSameColour` and `AbsorbUnion` state what the merge keeps and gains |
| LegacyBoard.Merged | src/board.rs:99-121 | holders taken out and their merge appended; `MergeOfHolders` and `MergedSoleHolder` prove one holder remains, last |
| LegacyBoard.PlacedChains | src/board.rs:76-97 | `place_stone` on the chain list; `PlacedOnAnyPoint` and `PlacedStoneJoinsOneChain` state its outcome |
| LegacyBoard.DeadStones | src/board.rs:67-72 | the stones of the chains without liberties; `SoleHolderDeadStones` proves a point's sole holder decides whether it is swept |
| LegacyBoard.HoldingPartition | src/board.rs:102-111 | the chains taken out and those left are together a permutation of the list |
| LegacyBoard.HoldingStep | src/board.rs:102-111 | one more chain of the list goes to the holders if it holds the point and to the rest otherwise |
| LegacyBoard.NoHolderKeepsList | src/board.rs:113 | when no chain holds the point, the list is unchanged |
| LegacyBoard.AbsorbBounds | src/board.rs:114-117 | the merged head keeps its colour and stones and gains only stones and liberties of the others |
| LegacyBoard.AbsorbSameColour | src/board.rs:114-117 | with one colour the merge is the union of stones and of liberties |
| LegacyBoard.MergedOnBoard | src/board.rs:99-121 | merging keeps every group on the board |
| LegacyBoard.ListedOnBoard | src/board.rs:80-93 | updating and appending keep every group on the board |
| LegacyBoard.NoneHeld | src/board.rs:104 | if no group holds the point, nothing is taken out |
| LegacyBoard.HoldingComplete | src/board.rs:102-111 | a chain is taken out exactly when it is in the list and holds the point, and stays exactly when it is in the list and does not |
| LegacyBoard.AbsorbUnion | src/board.rs:114-117 | the merge of same-coloured chains holds exactly the stones and liberties of some of them |
| LegacyBoard.HoldersUnion | src/board.rs:102-111 | the stones and liberties of the holders are those of the chains holding the point |
| LegacyBoard.SoleHolderLast | src/board.rs:113-119 | a holder appended to a list without holders is the only holder |
| LegacyBoard.MergeOfHolders | src/board.rs:99-121 | one-coloured holders merge into one holder appended last, after the others in order, uniting their stones and liberties |
| LegacyBoard.ListedShape | src/board.rs:78-93 | on a fresh point the updated list has holders of the mover's colour only, with the point, the allies' stones, the free neighbours and the allies' liberties |
| LegacyBoard.ListedEntries | src/board.rs:80-93 | each chain of the list is updated in place: it loses the point as a liberty, keeps its colour, and takes the stone exactly when it is an ally; a new chain is appended exactly when no ally took the stone |
| LegacyBoard.ListedUnion | src/board.rs:78-93 | the chains of the updated list holding the point hold exactly the point and the allies' stones, and breathe through exactly the free neighbours and the allies' liberties |
| LegacyBoard.PlacedStoneJoinsOneChain | src/board.rs:76-97 | on a fresh point exactly one chain, last and of the mover's colour, holds it: the point plus the allies' stones, breathing through the free neighbours and allies' liberties; no chain keeps the point as liberty (on any point: `PlacedOnAnyPoint`) |
| LegacyBoard.ListedHoldsPoint | src/board.rs:78-93 | whatever the point held before, some listed chain holds it and none breathes through it |
| LegacyBoard.MergedSoleHolder | src/board.rs:99-121 | when some chain holds the point, the merge leaves exactly one holder, last, with the colour of the first holder |
| LegacyBoard.MergedKeepsNoLiberty | src/board.rs:99-121 | a point no chain breathes through is breathed through by no chain after the merge |
| LegacyBoard.PlacedOnAnyPoint | src/board.rs:76-121 | on every move, fresh point or not, exactly one chain holds the point, last in the list, with the colour of the first listed holder, and no chain keeps the point as a liberty |
| LegacyBoard.Alive | src/board.rs:67-73 | the chains with a liberty, in order: a chain is kept exactly when it is listed and not dead |
| LegacyBoard.PrunedPlacementKeepsMover | src/board.rs:76-121 | with dead chains pruned first, a stone on a point no living chain holds ends in exactly one chain, last and of the mover's colour, with the allies' stones and liberties |
| LegacyBoard.Board.constructor | src/board.rs:17-24 | an empty grid and no chains |
| LegacyBoard.Board.GetLibertiesOfPos | src/board.rs:31-57 | `LibertiesAround` of the board's grid |
| LegacyBoard.Board.WithinBounds | src/board.rs:59-62 | the column is below the width and the row below the height |
| LegacyBoard.Board.StoneAt | src/board.rs:124-126 | the stone in row `row`, column `col` |
| LegacyBoard.Board.UpdateBoardState | src/board.rs:64-74 | the chains become `PlacedChains`, and the grid the placed grid with every dead chain's stones cleared |
| LegacyBoard.Board.ClearGroup | src/board.rs:69-71 | every point of the group becomes empty and every other cell keeps its stone |
| LegacyBoard.Board.PlaceStone | src/board.rs:76-97 | the cell gets the stone, and the chains become `PlacedChains` with the new liberty list |
| LegacyBoard.Board.MergeChainsIfNeeded | src/board.rs:99-121 | the removal loop and the extension loop leave `Merged` of the old list, with every group on the board |
| LegacyBoard.Board.TakeHolders | src/board.rs:100-111 | the removal loop leaves the chains not holding the point, in order, and collects the holders, in order |
| LegacyBoard.AbsorbAll | src/board.rs:113-117 | the extension loop computes `Absorb` of the first holder and the others |
| LegacyBoard.Swept | src/board.rs:67-73 | the sweep: a cell becomes Empty exactly when it is a dead chain's stone, and keeps its stone otherwise |
| LegacyGame.NewGameState | src/game.rs:18-27 | empty board, no chains, Black to move, no moves, not over |
| LegacyGame.BoardAfter | src/board.rs:64-74 | the grid keeps its shape and every group stays on the board |
| LegacyGame.MakeMoveSpec | src/game.rs:49-60 | a move keeps the board consistent and its dimensions |
| LegacyGame.UpdateSpec | src/game.rs:39-47 | every action keeps the board consistent and its dimensions |
| LegacyGame.Run | src/game.rs:29-37 | any run keeps the board consistent and its dimensions |
| LegacyGame.MakeMoveOutcome | src/game.rs:49-60 | every move counts and passes the turn, even on an occupied point. The point holds the mover's stone unless dead, and other cells change only by the sweep |
| LegacyGame.SoleHolderDeadStones | src/board.rs:67-72 | when one chain holds a point, the sweep clears the point exactly when that chain has no liberty |
| LegacyGame.MoveSurvivesUnlessDead | src/board.rs:64-97 | on a fresh point the stone ends in exactly one chain of its colour, and stays on the board exactly when that chain has a liberty |
| LegacyGame.RunCountsMoves | src/game.rs:29-60 | without Quit, the counter grows by the number of moves and the turn follows their parity |
| LegacyGame.RunEndsOnQuit | src/game.rs:29-47 | a finished game stays unchanged; a run ends the game exactly when a Quit was read |
| LegacyGame.Game.NewGame | src/game.rs:18-27 | the new controller's state is `NewGameState` |
| LegacyGame.Game.MakeMove | src/game.rs:49-60 | the new state is `MakeMoveSpec` of the old |
| LegacyGame.Game.Update | src/game.rs:39-47 | the new state is `UpdateSpec` of the old |
| LegacyGame.Game.StartGame | src/game.rs:29-37 | the loop leaves the state `Run` gives on the actions read |
| LegacyScenarios.LiveStoneSwept | src/board.rs:64-121 | after B(0,0), W(0,1), B(2,0), W(1,0), B(1,1), W(0,0) on a new 3-by-3 game, White's last stone is swept by its own move: (0, 0) is empty, the grid is as before the move, and the only chains holding (0, 0) are dead Black ones |
| LegacyScenarios.PrunedSixthMoveKeepsStone | src/board.rs:99-121 | with dead chains pruned, the same sixth move leaves one White chain holding (0, 0), breathing through (1, 0), no dead stone, and the stone on the board |
| Text.TrimStart | src/ui/mod.rs:28 | the result is a suffix; what is dropped is all whitespace; it does not start with whitespace |
| Text.TrimEnd | src/ui/mod.rs:28 | the result is a prefix; what is dropped is all whitespace; it does not end with whitespace |
| Text.TrimSlice | src/ui/mod.rs:28 | `trim` keeps a middle slice that neither starts nor ends with whitespace and drops only whitespace |
| Text.Trim | src/ui/mod.rs:28 | `str::trim`; `TrimSlice` and `TrimIdempotent` prove it drops exactly the whitespace at both ends and is idempotent |
| Text.TrimStartPadded | src/ui/mod.rs:28 | leading whitespace does not change `trim_start` |
| Text.TrimEndPadded | src/ui/mod.rs:28 | trailing whitespace does not change `trim_end` |
| Text.TrimStartAppend | src/ui/mod.rs:28 | once `trim_start` reaches a non-blank character, what follows is kept |
| Text.TrimmedIsFixed | src/ui/mod.rs:28 | a text with no whitespace at either end is its own trim |
| Text.TrimPadded | src/ui/mod.rs:28 | whitespace on both sides does not change the trim |
| Text.TrimIdempotent | src/ui/mod.rs:28 | trimming twice is trimming once |
| Text.ToAsciiUppercase | src/ui.rs:28 | only lower-case ASCII letters move; alphabetic bytes stay alphabetic |
| Text.AsciiUpper | src/ui.rs:21 | only lower-case letters move; letters stay letters |
| Text.Utf8Char | src/ui.rs:25 | a character takes one byte exactly when it is ASCII; the other bytes are all at least 0x80 |
| Text.Utf8 | src/ui.rs:25 | `len` is never less than the number of characters |
| Text.Utf8Ascii | src/ui.rs:25-29 | an ASCII text is its own byte string |
| Text.TwoBytesLetterFirst | src/ui.rs:25-32 | a two-byte text starting with an ASCII letter is two ASCII characters |
| Text.Utf8Upper | src/ui.rs:21 | upper-casing the characters upper-cases the bytes |
| Text.Normalized | src/ui.rs:21 | the trimmed, upper-cased line `get_move` hands on; `VariantsAgree` relates the two parsers through it |
| MoveParsers.Format | src/ui.rs:40-42 | the spelling of a position is an upper-case letter and a digit from 1 |
| MoveParsers.ParseMovePosition | src/ui.rs:24-43 | `ParseAccepts`, `ParseErrors` and `ParseFormat` prove what it accepts, which error it reports, and that it reads every spelling back |
| MoveParsers.ParseTrimmedMovePosition | src/ui/mod.rs:27-46 | `TrimmedAccepts` proves it accepts exactly a trimmed letter and digit |
| MoveParsers.ParseErrors | src/ui.rs:25-37 | the error reported is that of the first failing check: byte length, then row, then column |
| MoveParsers.ParseAccepts | src/ui.rs:24-43 | accepted exactly for an ASCII letter followed by an ASCII digit; the answer lies on a 26 by 9 board and the input spells it |
| MoveParsers.ParseFormat | src/ui.rs:24-43 | every position of a 26 by 9 board is read back from its spelling, in either case |
| MoveParsers.ParseExamples | src/ui.rs:49-97 | the module's test cases |
| MoveParsers.PaddingMatters | src/ui/mod.rs:27-46 | padding breaks the untrimmed parser and is ignored by the trimming one |
| MoveParsers.VariantsAgree | src/ui.rs:21 | the trimming parser on a raw line answers what the untrimmed one answers on the prepared line |
| MoveParsers.TrimmedAccepts | src/ui/mod.rs:27-46 | accepted exactly when the trimmed text is a letter and a digit; the answer lies on a 26 by 9 board |
| MoveParsers.TrimmedOnBareInput | src/ui/mod.rs:53-93 | on unpadded text, as in the tests, both parsers agree |
| GoParsers.Decimal | go/src/ui.rs:39 | the spelling is digits, without a leading zero |
| GoParsers.DecimalRoundTrip | go/src/ui.rs:39 | reading back a number's decimal spelling gives the number |
| GoParsers.ParseSplitPosition | go/src/ui.rs:24-41 | `SplitAccepts` and `SplitRoundTrip` prove what it accepts and that it reads every spelling back |
| GoParsers.ParseColumnFirst | go/src/game.rs:32-48 | `ColumnFirstSwaps` proves it is the split parser with the coordinates swapped |
| GoParsers.SplitAccepts | go/src/ui.rs:24-41 | accepted exactly for a letter followed by a non-empty run of digits that fits a `usize`; the row is the letter's distance from `A` and the column the number less one |
| GoParsers.SplitRoundTrip | go/src/ui.rs:24-41 | every row letter with any fitting column is read back, whatever its number of digits |
| GoParsers.SplitExamples | go/src/ui.rs:24-41 | multi-digit columns, an unfolded lower-case letter, a lone letter and the two error kinds |
| GoParsers.ColumnFirstSwaps | go/src/game.rs:32-48 | the same checks and messages as go/src/ui.rs, with the coordinates swapped |
| GoBoard.PlaceThenRead | go/src/board.rs:22-28 | a placed stone is read back at `(x, y)` and no other cell changes |
| GoBoard.CellAt | go/src/board.rs:26-28 | column `x` of row `y`; `PlaceThenRead` proves a placed stone is read back there |
| GoBoard.Board.constructor | go/src/board.rs:14-20 | `height` rows of `width` cells, each `Some(Empty)` |
| GoBoard.Board.PlaceStone | go/src/board.rs:22-24 | row `y`, column `x` gets the stone, read back by `stone_at(x, y)` |
| GoBoard.Board.StoneAt | go/src/board.rs:26-28 | a cell is never `None` |
| GoGame.MoveOutcome | go/src/game.rs:54-78 | a move succeeds exactly for a letter and digits. On failure, turn and counter are kept. On success the mover's colour is played, the counter grows by one and the turn passes |
| GoGame.GetMoveExample | go/src/game.rs:80-95 | the line `a1` with a newline is read as `A1`, a first move of Black at `(0, 0)` |
| GoGame.MoveSpec | go/src/game.rs:54-78 | `make_move` up to the board update; `MoveOutcome` proves when it succeeds and how turn and counter change |
| GoGame.Game.NewGame | go/src/game.rs:15-22 | an empty board, Black to move, no moves |
| GoGame.Game.MakeMove | go/src/game.rs:54-78 | result, turn and counter are those of `MoveSpec` |

## Left out

- Terminal I/O is not modelled: `get_move` reading a line, `view`/`print_board`, `to_ascii`, `Display` and colours.
- Controller.Game.PressEnemy: the `dbg!` at src/game_logic/game.rs:114 is left out. Its argument is a second `no_liberties(adjacent_index)` call, which in this model's liberty interface is a second path-halving `find` from the neighbour. The method performs only the query at :115. The extra halving would change parent pointers only: no root, no liberty set and no cell (`DisjointSets.FindHalving`). Lines and actions are parameters: `Normalized` is the line `get_move` prepares, and `StartGame` takes its actions as a sequence.
- Running out of input ends the `StartGame` loops; the source would block on input instead. An `Err` from the interface is not modelled.
- The liberty methods `initialize_liberties_of_pos`, `remove_liberty_from_chain` and `no_liberties` have no bodies in src/game_logic/union_find.rs. They are a minimal table: one set per node, written at the move's own index and read or shrunk at the root. `union` does not merge the liberty sets of the two roots, because the `union` shown does not.
- Controller.MakeMoveSpec: uses the corrected bounds test `Skipped`/`Accepted` (see Findings), and so do `LibertyList`, `NeighbourCellsMembers`, `VisitAdjacent`, `VisitAll`, `Game.CreateLibs`, `Game.VisitCandidate`, `Game.UpdateBoard` and `LibertyListExact`. On boards that are not square, the swapped test in src/game_logic/game.rs:98 and :162 has two effects. It lets some off-board candidates through, and the indexing then panics (`SwappedBoundsAdmitOffBoardCell`). It also skips some on-board neighbours (`SwappedBoundsSkipOnBoardCell`): on a board 3 wide and 2 high, the move at (0, 1) skips its neighbour (0, 2). A friendly stone there is never united with the move, an enemy there never loses the liberty, and its index is never listed among the move's liberties. On square boards the two tests agree.
- Indexing outside the board panics in the source. Such moves are excluded by `requires`: on-board moves for every `make_move`, `place_stone` and `update_board_state`.
- `usize` arithmetic is modelled as unbounded `nat`, except for the parse overflow of go/src/ui.rs. `move_number` and the union-find `size` cannot wrap in any reachable game.
- MoveParsers.ParseMovePosition: the digit `0` makes `(col - b'0') as usize - 1` underflow and panic. It is a precondition (`ZeroColumn`).
- GoParsers.ParseSplitPosition: `split_at(1)` panics on an empty text or a first character wider than one byte, and `col - 1` underflows on the number 0. Both are preconditions (`SplitsAtOne`, `ZeroNumber`). The unreachable "Input was empty" error is not modelled.
- GoParsers.ParseColumnFirst: the two `unwrap`s and `x - 1` panic on a missing, overflowing or zero number. They are a precondition (`ColumnFirstDefined`).
- GoParsers.SplitAccepts: `char::is_alphabetic` and `char::is_numeric` are modelled as ASCII only (`IsLetter`, `IsDigit`). A non-ASCII numeric character after the letter is reported as a non-digit here (`SecondError`). go/src/ui.rs would instead fail in `parse` and report a failed parse.
- GoParsers.ParseColumnFirst: on a non-ASCII numeric character after the letter, go/src/game.rs:46 panics in its `unwrap`. `ColumnFirstDefined` does not exclude that input, and the model returns `SecondError` there.
- GoGame.MakeMove: go/src/game.rs:72 calls `board.update_board_state`, which go/src/board.rs does not define. The model stops before that call and returns the move record it would hand over. go/src/game.rs:24-30 loops forever on stdin and is not modelled. The integration tests in go/tests/ call `new_game()` without arguments and do not match this code.
- The legacy board holds its chains as values. Each `Chain` is owned by the list and never aliased, so nothing is lost. `extend_chain` errors are ignored as at src/board.rs:116: that chain is dropped.
- Legacy quirks are modelled as written. Dead chains stay in the list, both colours are swept, and a move onto an occupied point is accepted. Only the first has a consequence the code does not state plainly: a later stone on a captured point is merged into the dead chain or dropped (second Findings row).
- ControllerFacts.MakeMoveCaptures: the capture rule for a whole move is stated for moves with no friendly orthogonal neighbour, where no union runs between the presses. With friendly neighbours each press is still covered by `PressStep` and `VisitAdjacentPresses`.
- LegacyBoard.PlacedChainsPruned: the corrected placement is proved at the board level (`PrunedPlacementKeepsMover`, `LegacyScenarios.PrunedSixthMoveKeepsStone`). `LegacyGame` keeps the code as written, so that its rows describe the source.

## Findings

| source | as written | input that shows it | evidently intended | confidence | as-written member | corrected member |
|---|---|---|---|---|---|---|
| src/game_logic/game.rs:98 | the test that skips a candidate compares the row with the width and the column with the height (also at :162) | a board 3 wide and 2 high. A move at row 1, column 0: the candidate at row 2, column 0 is not skipped, so `state[2][0]` is read past the last row. A move at row 0, column 1: its on-board neighbour at row 0, column 2 is skipped | a row is skipped at or past the height, a column at or past the width | not executed | ControllerFacts.SwappedBoundsSkipOnBoardCell | ControllerFacts.LibertyListExact |
| src/board.rs:64-121 | the sweep clears the stones of dead chains but leaves the chains in the list; a later stone on such a point is merged with the dead chain, and `extend_chain`'s error at :116 is ignored, so a stone of the other colour is dropped | on a 3-by-3 board: Black (0, 0), White (0, 1), Black (2, 0), White (1, 0), Black (1, 1), White (0, 0). White's stone at (0, 0) has the liberty (1, 0), yet the dead Black chain heads the merge, the White chain is dropped and the sweep clears (0, 0) | a captured chain leaves the list, so a stone on its point forms or joins a chain of its own colour and stays while that chain has a liberty | not executed | LegacyScenarios.LiveStoneSwept | LegacyBoard.PrunedPlacementKeepsMover |
