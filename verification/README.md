# Wumpus world: deduction engine, world and agent

This project models the back end of a small Wumpus-world game in Dafny and proves properties of
the model. The board is an N×N grid holding pits, wumpuses and gold; the agent starts in the
top-left cell (0, 0).

- **The world** (`backend/game/world.py`, modules `WorldModel` and `Soundness`):
  - keeps the ground-truth grid, the visited cells and a cache of each visited cell's percepts;
  - reports a "breeze" next to a pit and a "stench" next to a wumpus;
  - shows the player a visible grid where every unvisited cell is "unknown";
  - moves the agent.
- **The agent** (`backend/game/agent.py`, module `AgentModel`):
  - keeps its position, its visited cells, a move history of board labels such as "B3", and a game-over flag;
  - `make_move` either checks a manual target or asks the engine for an automatic one.
- **The engine** (`backend/game/logic.py` and its copy in `backend/app.py`):
  - reads only the visible grid;
  - marks visited cells and the visited pits and wumpuses (modules `Cells`, `Deduction`);
  - classifies every unknown cell as safe, dangerous, risky or unclassified from its visited neighbours' labels;
  - then picks a move by three rules in order (modules `Search`, `Selector`):
    1. the "trapped" rule over the agent's neighbours;
    2. a breadth-first search towards the nearest safe unknown cell that never enters a dangerous cell;
    3. the same search towards the nearest risky unknown cell;
    4. otherwise it stays in place.
- **The app layer** (`backend/app.py`, modules `MoveLabels` and `App`): the copy there also takes the previous cell, which it finds by parsing the second-to-last history label back into coordinates.

Labels form a closed set: `Unknown`, `Empty`, `Pit`, `Wumpus`, `Gold` and `Sensed(ps)`. In `Sensed(ps)`, `ps` is the list of percepts that the source joins with "+". The source's substring tests `"breeze" in cell` become `Breeze in ps`. The engine's English reasons become the `Rule` tag. The agent's reasons become `Reason(mode, outcome)`.

The model keeps the percepts in the order the code appends them, which follows the neighbour scan order. So "stench+breeze" can occur; the code does not sort the percepts into "breeze before stench".

In the code as written, the trapped rule's "return to the previous cell" branch can never fire. Its guard needs an unknown neighbour, and that neighbour makes the "all other neighbours are pits or wumpuses" scan fail. `Selector.ReturnToPreviousNeverFires` proves this. With no previous cell, as in `backend/game/logic.py`, the branch is unreachable anyway.

`get_best_move` of `backend/game/logic.py` is the same code as `get_best_move_and_reason` without a previous cell. The model therefore has one engine, `Selector.BestMoveAndReason`. `Selector.GetBestMove` is that engine with no previous cell, and the agent's automatic moves use it.

## Model

| member | source | states |
|---|---|---|
| Deduction.Classify | backend/game/logic.py:13-50 | visited cells are exactly the non-"unknown" ones; an unknown cell is safe iff it has a visited clean ("white") neighbour; dangerous iff it is a visited pit/wumpus, or an unknown cell with visited neighbours, none clean, all sensing breeze or stench; risky iff unknown, no clean neighbour, some but not all visited neighbours sensing |
| Deduction.Scan | backend/game/logic.py:31-40 | the flags of the neighbour loop after k directions: some visited neighbour, some clean one, all sensed, some sensed, each as an exists/forall over the scanned directions |
| Deduction.ScanMeaning | backend/game/logic.py:31-48 | the scan over the eight directions agrees with the same facts phrased over all adjacent cells |
| Deduction.ClassesDisjoint | backend/game/logic.py:43-50 | safe holds only unknown cells, safe and dangerous are disjoint, and risky is disjoint from both |
| Deduction.CleanNeighbourMakesSafe | backend/game/logic.py:31-44 | an unknown cell next to a visited clean cell is safe, whatever its other neighbours show |
| Deduction.IsolatedCellUnclassified | backend/game/logic.py:31-42 | an unknown cell without a visited neighbour is in none of safe, dangerous, risky |
| Deduction.RiskySubtractionIsDefensive | backend/game/logic.py:47-50 | every unknown cell judged risky ends in the risky set: the subtraction of safe and dangerous removes nothing |
| Selector.Gather | backend/game/logic.py:52-61 | the neighbour list holds exactly the directions whose cell is of the kind (unknown, or visited and not pit/wumpus), in scan order |
| Selector.FirstOther | backend/app.py:108-115 | the first listed neighbour that is not the previous cell, or none when all of them are |
| Selector.ReturnToPreviousNeverFires | backend/app.py:91-106 | whenever the trapped rule fires, it is the leave-by-a-visited-neighbour branch; the return-to-previous branch never does |
| Selector.TrappedMeaning | backend/app.py:91-115 | the trapped rule fires iff the agent has an unknown neighbour, none of its unknown neighbours is safe, and some open neighbour is not the previous cell; it then picks the first such neighbour in scan order |
| Selector.TrappedSound | backend/game/logic.py:69-84 | when the trapped rule returns a move, its guard held and the move is the first open neighbour in scan order |
| Selector.TrappedComplete | backend/game/logic.py:69-84 | when the guard holds, the trapped rule returns a move |
| Selector.BestMoveAndReason | backend/app.py:13-186 | the move is the agent's cell or an in-grid neighbour; a move from a rule is never dangerous; the trapped rule fires iff it applies; a safe-search answer is the first step of a shortest non-dangerous walk to a safe unknown cell; the risky search runs only when no safe target is reachable, and answers with the first step of a shortest walk to a risky one; staying put means neither kind is reachable |
| Selector.GetBestMove | backend/game/logic.py:1-130 | the engine without a previous cell: the trapped rule returns the first open neighbour, else the first step of a shortest walk to a safe cell, else to a risky cell, else the agent's own cell; never a dangerous neighbour |
| Selector.NearestWalkUnique | backend/game/logic.py:86-106 | two walks that are both the search's answer (shortest, and first in scan order among the shortest) are the same walk |
| Selector.EnginePickIsUnique | backend/game/logic.py:52-130 | the engine's answer is a function of the visible grid and the agent's cell: any two moves it may give are equal |
| Selector.StaysExactlyWhenStuck | backend/game/logic.py:69-130 | from a visited cell, the engine answers the agent's own cell iff the trapped rule does not apply and neither a safe nor a risky unknown cell is reachable |
| Search.NearestStep | backend/game/logic.py:86-106 | the FIFO search either finds a walk that avoids dangerous cells, ends in a target and is no longer than any such walk, answering its first step, or there is no walk to a target at all; the walk found is the first of all target walks ordered by length and then by the sequence of direction numbers, which fixes the answer among equally short walks |
| Search.Expand | backend/game/logic.py:100-106 | the entries appended are exactly the in-grid, non-dangerous, unexplored neighbours, in increasing direction order, each with the parent's path extended by that neighbour; so each is one step further than its parent, and every such neighbour is queued or already explored |
| Search.WalkOrderTotal | backend/game/logic.py:88-106 | any two distinct walks from the same cell are ordered one way or the other: a walk is determined by its direction numbers |
| Search.ClosedSetHoldsWalks | backend/game/logic.py:89-106 | once the queue is empty, the explored set holds the end of every non-dangerous walk from the start |
| MoveLabels.Columns | backend/app.py:83 | the column letters are the first `cols` of A to E (Python slice rules for negative counts) |
| MoveLabels.PosToLabel | backend/app.py:188-191 | a label is the column letter followed by the decimal row plus one |
| MoveLabels.ParseLabel | backend/app.py:83-86 | an empty label, a first character that is not a column letter, and a rest that is not an integer are each their own error; otherwise parsing succeeds, the column letter is the label's first character and the row plus one is what the rest parses to |
| MoveLabels.IndexOf | backend/app.py:84 | `list.index`: the first occurrence, or none iff the letter is absent |
| MoveLabels.IntRoundTrip | backend/game/agent.py:138 | `int(str(n)) == n` for every integer |
| MoveLabels.LabelRoundTrip | backend/app.py:83-86 | parsing the label of any position whose column has a letter gives back the position |
| App.PrevCell | backend/app.py:80-86 | there is no previous cell iff the history has fewer than two entries; otherwise parsing fails exactly when the second-to-last label does not parse, and a parsed cell's column letter is that label's first character and its row plus one is what the rest of the label parses to |
| App.PrevCellOfLoggedMoves | backend/app.py:80-86 | when the second-to-last entry was logged for a cell, the previous cell is that cell |
| App.ResetLogged | backend/game/agent.py:17-29 | after `reset` the history holds only board labels and `get_best_move_and_reason` finds no previous cell |
| App.LoggedPrevCellParses | backend/app.py:80-86 | on a history of board labels the previous cell always parses, to an on-board cell |
| App.MoveLogged | backend/game/agent.py:111 | `make_move` keeps every history entry a board label, adding one entry exactly when it moves |
| App.BestMoveWithHistory | backend/app.py:13-186 | the engine fed with the parsed previous cell: an error exactly when the parse fails; otherwise the move is never dangerous, the trapped rule fires iff it applies, a safe or risky answer is the first step of a shortest non-dangerous walk to such a cell, "already at" exactly when that walk is empty, and staying put means no target is reachable |
| WorldModel.MooreScanIsNear | backend/game/world.py:79-95 | the nine scanned cells are exactly the closed Moore neighbourhood |
| WorldModel.PerceptsMeaning | backend/game/world.py:69-97 | "breeze" is perceived iff a pit lies in the closed neighbourhood, "stench" iff a wumpus does, and neither appears twice |
| WorldModel.GetPercepts | backend/game/world.py:84-97 | at most two percepts |
| WorldModel.CollectMeaning | backend/game/world.py:84-95 | after k scanned cells, a percept is present iff one of those cells holds its hazard |
| WorldModel.VisibleGrid | backend/game/world.py:99-122 | the visible grid is size×size; a cell shows "unknown" iff it is unvisited; a visited non-empty cell shows its content, an empty one its cached percepts or "empty" |
| WorldModel.VisibleGridHidesUnvisited | backend/game/world.py:105-120 | two worlds of the same size that agree on the visited cells, their contents and the cached percepts show the same visible grid, so unvisited cells reveal nothing |
| WorldModel.MoveAgent | backend/game/world.py:124-144 | off the board is an error and nothing changes; otherwise the agent is at the target, exactly the target is added to the visited cells, its percepts are cached, every other field (the board, the counts, the configuration) is kept, and the content and percepts are returned |
| WorldModel.MoveAgentKeepsInv | backend/game/world.py:124-144 | a move keeps the world invariant: the board is unchanged and every visited cell's cached percepts are its true percepts |
| WorldModel.IsSafeMeansNoHazard | backend/game/world.py:146-154 | a cell is safe iff it is on the board and holds neither a pit nor a wumpus |
| WorldModel.Place | backend/game/world.py:24-45 | rejection sampling succeeds iff the cells already placed plus the distinct eligible draws (not (0, 0), not taken, not placed) reach `count`; it then places `count` cells, each drawn, never the start cell, never an already taken or placed cell, and the eligible draws left are the old ones minus those placed |
| WorldModel.PlaceAll | backend/game/world.py:23-45 | placing succeeds iff the draws hold at least wumpus + gold + pit count distinct cells other than (0, 0); the wumpus, gold and pit sets then have the configured sizes, lie on the board, are pairwise disjoint and avoid (0, 0) |
| WorldModel.PlaceGoldsAndPits | backend/game/world.py:31-45 | after the wumpuses, placing succeeds iff the draws hold at least gold + pit count distinct cells that are neither (0, 0) nor a wumpus; golds and pits then have the configured sizes, lie on the board, avoid (0, 0) and the wumpuses, and are disjoint |
| WorldModel.Reset | backend/game/world.py:20-52 | a reset succeeds iff the draws hold at least wumpus + gold + pit count distinct cells other than (0, 0); after a reset the world invariant holds, the entity sets have the configured sizes and are disjoint, (0, 0) is empty and the only visited cell, and the agent stands on it |
| Soundness.VisitedAgrees | backend/game/logic.py:13-20 | on the world's own visible grid, the engine's visited set is the world's visited set |
| Soundness.CleanMeansNoHazardNear | backend/game/world.py:99-122 | a visited cell shown clean has no pit and no wumpus around it |
| Soundness.SafeIsSafe | backend/game/logic.py:37-44 | every cell the engine deduces safe is unvisited and really holds neither a pit nor a wumpus |
| Soundness.VisitedDangerIsReal | backend/game/logic.py:17-20 | a visited cell the engine marks dangerous really holds a pit or a wumpus |
| AgentModel.IsAdjacent | backend/game/agent.py:31-34 | true iff the Chebyshev distance is exactly one, so staying put is not adjacent |
| AgentModel.ResetAgent | backend/game/agent.py:17-29 | after `reset` the agent is at (0, 0), has not ended the game and has an empty history; agent and world both have visited only (0, 0); the world's board, counts and configuration are kept and the invariant holds |
| AgentModel.SyncIsIdentity | backend/game/agent.py:115-118 | between moves, re-caching the percepts of the visited cells changes nothing |
| AgentModel.EnterLogsMove | backend/game/agent.py:92-111 | a move sets the position to the target, adds it to both visited sets, appends exactly one history entry labelled with the target, and ends the game iff the cell is a pit, a wumpus or gold |
| AgentModel.EnterAgreesWithMoveAgent | backend/game/agent.py:92-98 | the world after a move is what `move_agent` produces, and the invariant holds again |
| AgentModel.AutoTarget | backend/game/agent.py:83-86 | the answer is the engine's pick on the world's own visible grid: the agent's cell exactly when the engine is stuck, otherwise an on-board neighbour that is not known to be dangerous |
| AgentModel.Commit | backend/game/agent.py:79-111 | a target whose column has no letter is rejected with nothing changed, exactly as the label lookup fails; otherwise the agent enters it, logs it and ends the game exactly on a non-empty cell, agreeing with `move_agent` |
| AgentModel.AutoMove | backend/game/agent.py:81-90 | "no safe moves" is reported exactly when the engine is stuck, and then only the game-over flag changes; an automatic move enters the engine's pick, never a cell known to be dangerous |
| AgentModel.MakeMove | backend/game/agent.py:67-113 | a finished game, an off-board or a non-adjacent manual target change nothing; a valid manual target is entered iff its column has a letter; the automatic mode reports "no safe moves" exactly when the engine is stuck, ends the game and changes nothing else, and otherwise enters the engine's pick; a target without a column letter changes nothing; a move enters an adjacent on-board cell, logs it, ends the game exactly on a non-empty cell and agrees with `move_agent`; the invariant is kept |
| Geometry.AdjacentIsOffset | backend/game/logic.py:6 | the eight directions reach exactly the adjacent cells |
| Geometry.AdjacentIsDistanceOne | backend/game/agent.py:31-34 | adjacency is Chebyshev distance one |

## Left out

- The Flask routes `init_game`, `next_move`, `manual_move` and `preview_best_move` are not modelled. Neither are `build_response`, `jsonify`, CORS or the global `world` and `agent` objects. These are HTTP and JSON plumbing. The history is passed to the engine explicitly instead of being read from the global agent.
- The English reason strings are reduced to tags: `Rule` for the engine and `Reason` for the agent.
- WorldModel.Reset: takes the `random.randint` draws as a finite sequence of on-board positions, and returns `None` exactly when the draws hold too few distinct cells other than (0, 0), where the source would keep drawing. The source never terminates when the board has fewer free cells than the counts ask for.
- `World.place_entities`, `World.print_debug` and `World.to_dict` are not modelled: they are unused or only print or serialise. So are `Agent.choose_best_move`, which `make_move` never calls and which uses `random.choice`, and `Agent._generate_board_labels`.
- The frontend is not part of this model.
- MoveLabels.ParseInt: accepts an optional sign followed by digits. Python's `int` also accepts surrounding whitespace and underscores. No label the game produces contains either.
- MoveLabels.PosToLabel: requires a column with a letter. The source cuts the letters to the first `cols` (`min(5, cols)` of them), raises IndexError for a column at or beyond that number or below its negative, and wraps any other negative column around to a letter from the end.
- On boards wider than five columns `_pos_to_label` raises IndexError for a target in column 5 or beyond, before `make_move` changes anything (backend/game/agent.py:80 and 90). The model reports this as the status `NoColumnLetter` with the agent unchanged; the propagation of the exception to the HTTP layer is not modelled.
- WorldModel.GetPercepts: requires an on-board cell. The source's `self.grid[r][c]` would wrap a negative index or raise.
- WorldModel.Reset: requires a size of at least 1. The counts are natural numbers, while the source's `while len(...) < count` accepts any integer.
- Only integer column counts are modelled for the label letters. Only grids whose rows all have the same length are handled.

