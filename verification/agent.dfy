/** The agent of backend/game/agent.py: its position, visited cells, move history and game-over
    flag, reset, and the `make_move` transition (manual or automatic). */
module AgentModel {
  import opened Basics
  import opened Geometry
  import opened Cells
  import opened Deduction
  import opened Selector
  import opened MoveLabels
  import opened WorldModel

  /** Whether the move was requested by the user or chosen by the engine. */
  datatype Mode = Manual | Auto

  /** What entering the cell did (the source appends an English sentence for each end). */
  datatype Outcome = Continues | FellIntoPit | EatenByWumpus | FoundGold

  /** The reason text of a successful move, as a tag. */
  datatype Reason = Reason(mode: Mode, outcome: Outcome)

  /** One `move_history` entry: the board label of the entered cell and the reason. */
  datatype HistoryEntry = HistoryEntry(boardLabel: string, reason: Reason)

  datatype Agent = Agent(
    world: World,
    pos: Pos,
    visited: set<Pos>,
    history: seq<HistoryEntry>,
    gameOver: bool
  )

  /** The answer `make_move` reports, as a tag instead of the response text. */
  datatype Status =
    | GameAlreadyOver        // "Game over."
    | OffBoard               // "Invalid manual move: out of bounds."
    | NotNeighbour           // "Invalid manual move: must move to a neighboring cell."
    | NoSafeMoves            // "No safe moves left. Game over."
    | NoColumnLetter         // `_pos_to_label` raises IndexError: the target's column has no letter
    | Moved(reason: Reason)  // the move happened

  /** `_is_adjacent`: Chebyshev distance exactly one. */
  function IsAdjacent(p: Pos, q: Pos): (b: bool)
    ensures b <==> Adjacent(p, q)
  {
    AdjacentIsDistanceOne(p, q);
    Chebyshev(p, q) == 1
  }

  /** The if/elif chain on the entered cell. */
  function OutcomeOf(c: Content): Outcome
  {
    match c
    case PitCell => FellIntoPit
    case WumpusCell => EatenByWumpus
    case GoldCell => FoundGold
    case EmptyCell => Continues
  }

  /** What holds between moves: the world invariant, a board the column letters can label,
      and agent and world agreeing on the position and the visited cells. */
  ghost predicate AgentInv(a: Agent)
  {
    && WorldInv(a.world)
    && a.pos == a.world.agentPos
    && a.visited == a.world.visited
  }

  /** The percept cache with every cell of `vs` looked at afresh (the loop in `_build_response`
      and in `reset`). */
  function Refresh(w: World, vs: set<Pos>): map<Pos, seq<Percept>>
    requires Shaped(w) && forall p :: p in vs ==> InBounds(w, p)
  {
    map p | p in w.percepts.Keys + vs :: if p in vs then GetPercepts(w, p) else w.percepts[p]
  }

  /** The side effect of `_build_response`, which every exit of `make_move` goes through. */
  function Sync(a: Agent): Agent
    requires Shaped(a.world) && forall p :: p in a.visited ==> InBounds(a.world, p)
  {
    a.(world := a.world.(percepts := Refresh(a.world, a.visited)))
  }

  lemma RefreshKeys(w: World)
    requires Shaped(w) && Knowledge(w)
    ensures Refresh(w, w.visited).Keys == w.percepts.Keys
  {
  }

  lemma RefreshValues(w: World)
    requires Shaped(w) && Knowledge(w)
    ensures forall p :: p in w.percepts ==> Refresh(w, w.visited)[p] == w.percepts[p]
  {
  }

  /** Between moves the cache already holds the true percepts of the visited cells, so the
      resynchronisation changes nothing. */
  lemma SyncIsIdentity(a: Agent)
    requires Shaped(a.world) && Knowledge(a.world) && a.visited == a.world.visited
    ensures Sync(a) == a
  {
    RefreshKeys(a.world);
    RefreshValues(a.world);
    assert Refresh(a.world, a.visited) == a.world.percepts;
  }

  /** `reset`: back to the start cell with an empty history; the world forgets all visits but
      the start cell and caches its percepts. The board itself is kept. */
  function ResetAgent(a: Agent): (a': Agent)
    requires Board(a.world)
    ensures AgentInv(a')
    ensures a'.pos == (0, 0) && a'.visited == {(0, 0)} && a'.world.visited == {(0, 0)}
    ensures a'.history == [] && !a'.gameOver
    ensures a'.world.grid == a.world.grid && a'.world.size == a.world.size
    ensures a'.world.pits == a.world.pits && a'.world.wumpuses == a.world.wumpuses && a'.world.golds == a.world.golds
    ensures a'.world.(agentPos := a.world.agentPos, visited := a.world.visited, percepts := a.world.percepts) == a.world
  {
    var w := a.world.(agentPos := (0, 0), visited := {(0, 0)}, percepts := map[]);
    BoardFrame(a.world, w);
    var a' := Sync(Agent(w, (0, 0), {(0, 0)}, [], false));
    BoardFrame(w, a'.world);
    GetPerceptsFrame(w, a'.world, (0, 0));
    a'
  }

  /** The world's side of stepping onto `target`: the position and the visited set change. */
  function Visit(w: World, target: Pos): World
  {
    w.(agentPos := target, visited := w.visited + {target})
  }

  /** Lines 92-111 of `make_move`: step onto `target`, mark it visited in agent and world, end
      the game on a pit, a wumpus or gold, and log the move. */
  function Enter(a: Agent, target: Pos, mode: Mode): Agent
    requires Shaped(a.world) && InBounds(a.world, target) && target.1 < |Columns(a.world.size)|
  {
    var w := Visit(a.world, target);
    var outcome := OutcomeOf(ContentAt(a.world, target));
    Agent(w, target, a.visited + {target},
          a.history + [HistoryEntry(PosToLabel(target, a.world.size), Reason(mode, outcome))],
          a.gameOver || outcome != Continues)
  }

  lemma RefreshAfterVisitKeys(w: World, target: Pos)
    requires Shaped(w) && Knowledge(w) && InBounds(w, target)
    ensures var w2 := Visit(w, target);
      && Shaped(w2) && (forall p :: p in w2.visited ==> InBounds(w2, p))
      && Refresh(w2, w2.visited).Keys == w.percepts.Keys + {target}
  {
    var w2 := Visit(w, target);
    assert Shaped(w2);
  }

  lemma RefreshAfterVisitValues(w: World, target: Pos)
    requires Shaped(w) && Knowledge(w) && InBounds(w, target)
    ensures var w2 := Visit(w, target);
      && Shaped(w2) && (forall p :: p in w2.visited ==> InBounds(w2, p))
      && Refresh(w2, w2.visited)[target] == GetPercepts(w, target)
      && forall p :: p in w.percepts && p != target ==> Refresh(w2, w2.visited)[p] == w.percepts[p]
  {
    var w2 := Visit(w, target);
    assert Shaped(w2);
    GetPerceptsFrame(w, w2, target);
    forall p | p in w.percepts && p != target
      ensures Refresh(w2, w2.visited)[p] == w.percepts[p]
    {
      GetPerceptsFrame(w, w2, p);
    }
  }

  /** Resynchronising after a visit caches the new cell's percepts and keeps the rest. */
  lemma RefreshAfterVisit(w: World, target: Pos)
    requires Shaped(w) && Knowledge(w) && InBounds(w, target)
    ensures var w2 := Visit(w, target);
      && Shaped(w2) && (forall p :: p in w2.visited ==> InBounds(w2, p))
      && Refresh(w2, w2.visited) == w.percepts[target := GetPercepts(w, target)]
  {
    RefreshAfterVisitKeys(w, target);
    RefreshAfterVisitValues(w, target);
    var w2 := Visit(w, target);
    MapUpdateEq(Refresh(w2, w2.visited), w.percepts, target, GetPercepts(w, target));
  }

  /** A map that agrees with `m0` off `k` and maps `k` to `v` is `m0[k := v]`. */
  lemma MapUpdateEq<K, V>(m: map<K, V>, m0: map<K, V>, k: K, v: V)
    requires m.Keys == m0.Keys + {k} && k in m && m[k] == v
    requires forall p :: p in m0 && p != k ==> m[p] == m0[p]
    ensures m == m0[k := v]
  {
  }

  /** The world after a move and the resynchronisation. */
  lemma SyncAfterEnter(a: Agent, target: Pos, mode: Mode)
    requires Shaped(a.world) && Knowledge(a.world) && a.visited == a.world.visited
    requires InBounds(a.world, target) && target.1 < |Columns(a.world.size)|
    ensures var e := Enter(a, target, mode);
      && Shaped(e.world) && (forall p :: p in e.visited ==> InBounds(e.world, p))
      && Sync(e).world == Visit(a.world, target).(percepts := a.world.percepts[target := GetPercepts(a.world, target)])
  {
    RefreshAfterVisit(a.world, target);
    assert Enter(a, target, mode).world == Visit(a.world, target);
  }

  /** A move steps onto the target, adds it to the visited cells of agent and world, logs
      it under the target's board label, and ends the game exactly on a non-empty cell. */
  lemma EnterLogsMove(a: Agent, target: Pos, mode: Mode)
    requires Shaped(a.world) && InBounds(a.world, target) && target.1 < |Columns(a.world.size)| && !a.gameOver
    requires forall p :: p in a.visited ==> InBounds(a.world, p)
    requires a.visited == a.world.visited
    ensures var e := Enter(a, target, mode);
      && Shaped(e.world) && (forall p :: p in e.visited ==> InBounds(e.world, p))
      && var a' := Sync(e);
      && a'.pos == target && a'.world.size == a.world.size
      && a'.visited == a.visited + {target} && a'.world.visited == a'.visited
      && a'.history == a.history + [HistoryEntry(PosToLabel(target, a.world.size), Reason(mode, OutcomeOf(ContentAt(a.world, target))))]
      && (a'.gameOver <==> ContentAt(a.world, target) != EmptyCell)
  {
    var e := Enter(a, target, mode);
    assert Shaped(e.world);
  }

  /** After a move and the resynchronisation, the world is exactly what `move_agent` would
      have produced, and the invariant holds again. */
  lemma EnterAgreesWithMoveAgent(a: Agent, target: Pos, mode: Mode)
    requires AgentInv(a) && InBounds(a.world, target) && target.1 < |Columns(a.world.size)|
    ensures var e := Enter(a, target, mode);
      && Shaped(e.world) && (forall p :: p in e.visited ==> InBounds(e.world, p))
      && var a' := Sync(e);
      && MoveAgent(a.world, target) == Success((a'.world, ContentAt(a.world, target), GetPercepts(a.world, target)))
      && AgentInv(a')
  {
    SyncAfterEnter(a, target, mode);
    MoveAgentKeepsInv(a.world, target);
  }

  /** The engine's move on the world's own view: `get_best_move` on the visible grid. It is
      the agent's cell exactly when no rule finds a move, and otherwise an on-board neighbour
      that is not known to be dangerous. */
  method AutoTarget(a: Agent) returns (best: Pos)
    requires AgentInv(a)
    ensures EnginePick(VisibleGrid(a.world), a.pos, best)
    ensures best == a.pos <==> Stuck(VisibleGrid(a.world), a.pos)
    ensures best == a.pos || (InBounds(a.world, best) && Adjacent(a.pos, best)
                              && best !in Classify(VisibleGrid(a.world)).dangerous)
  {
    var g := VisibleGrid(a.world);
    best := GetBestMove(g, a.pos);
    assert VisitedAt(g, a.pos);
    StaysExactlyWhenStuck(g, a.pos);
  }

  /** Lines 79-111 of `make_move` once a target is fixed: the reason text needs the target's
      column letter, and `_pos_to_label` raises before anything changes when there is none;
      otherwise the agent enters the target. */
  method Commit(a: Agent, target: Pos, mode: Mode) returns (a': Agent, status: Status)
    requires AgentInv(a) && !a.gameOver && InBounds(a.world, target) && Adjacent(a.pos, target)
    ensures AgentInv(a') && a'.world.size == a.world.size
    ensures status == NoColumnLetter <==> target.1 >= |Columns(a.world.size)|
    ensures status == NoColumnLetter ==> a' == a
    ensures status != NoColumnLetter ==>
      && status == Moved(Reason(mode, OutcomeOf(ContentAt(a.world, target))))
      && a'.pos == target && target.1 < |Columns(a.world.size)|
      && a'.visited == a.visited + {target} && a'.world.visited == a'.visited
      && a'.history == a.history + [HistoryEntry(PosToLabel(target, a.world.size), status.reason)]
      && (a'.gameOver <==> ContentAt(a.world, target) != EmptyCell)
      && MoveAgent(a.world, target) == Success((a'.world, ContentAt(a.world, target), GetPercepts(a.world, target)))
  {
    if target.1 >= |Columns(a.world.size)| {
      return a, NoColumnLetter;
    }
    EnterLogsMove(a, target, mode);
    EnterAgreesWithMoveAgent(a, target, mode);
    a' := Sync(Enter(a, target, mode));
    status := Moved(Reason(mode, OutcomeOf(ContentAt(a.world, target))));
  }

  /** The automatic branch of `make_move` (lines 81-90): ask the engine; when it stays put the
      game ends, otherwise commit to its answer. */
  method AutoMove(a: Agent) returns (a': Agent, status: Status)
    requires AgentInv(a) && !a.gameOver
    ensures AgentInv(a') && a'.world.size == a.world.size
    ensures status == NoSafeMoves <==> Stuck(VisibleGrid(a.world), a.pos)
    ensures status == NoSafeMoves ==> a' == a.(gameOver := true)
    ensures status == NoSafeMoves || status == NoColumnLetter || (status.Moved? && status.reason.mode == Auto)
    ensures status == NoColumnLetter ==>
      a' == a && exists b :: EnginePick(VisibleGrid(a.world), a.pos, b) && b != a.pos && b.1 >= |Columns(a.world.size)|
    ensures status.Moved? ==>
      && EnginePick(VisibleGrid(a.world), a.pos, a'.pos)
      && Adjacent(a.pos, a'.pos) && InBounds(a.world, a'.pos) && a'.pos.1 < |Columns(a.world.size)|
      && a'.pos !in Classify(VisibleGrid(a.world)).dangerous
      && a'.visited == a.visited + {a'.pos} && a'.world.visited == a'.visited
      && a'.history == a.history + [HistoryEntry(PosToLabel(a'.pos, a.world.size), status.reason)]
      && status.reason.outcome == OutcomeOf(ContentAt(a.world, a'.pos))
      && (a'.gameOver <==> ContentAt(a.world, a'.pos) != EmptyCell)
      && MoveAgent(a.world, a'.pos) == Success((a'.world, ContentAt(a.world, a'.pos), GetPercepts(a.world, a'.pos)))
  {
    var best := AutoTarget(a);
    if best == a.pos {
      var over := a.(gameOver := true);
      SyncIsIdentity(over);
      return Sync(over), NoSafeMoves;
    }
    a', status := Commit(a, best, Auto);
  }

  /** `make_move`. Manual moves are checked for being on the board and next to the agent;
      automatic moves come from the engine of backend/game/logic.py on the visible grid, and
      the game ends when the engine proposes to stay. A target whose column has no letter
      makes the source raise before any change. */
  method MakeMove(a: Agent, manual: Option<Pos>) returns (a': Agent, status: Status)
    requires AgentInv(a)
    ensures AgentInv(a') && a'.world.size == a.world.size
    ensures a.gameOver ==> a' == a && status == GameAlreadyOver
    ensures !a.gameOver && manual.Some? && !InBounds(a.world, manual.value) ==>
      a' == a && status == OffBoard
    ensures !a.gameOver && manual.Some? && InBounds(a.world, manual.value) && !Adjacent(a.pos, manual.value) ==>
      a' == a && status == NotNeighbour
    ensures !a.gameOver && manual.Some? && InBounds(a.world, manual.value) && Adjacent(a.pos, manual.value) ==>
      if manual.value.1 < |Columns(a.world.size)| then
        status.Moved? && a'.pos == manual.value && status.reason.mode == Manual
      else a' == a && status == NoColumnLetter
    ensures !a.gameOver && manual.None? ==>
      && (status == NoSafeMoves <==> Stuck(VisibleGrid(a.world), a.pos))
      && (status == NoSafeMoves || status == NoColumnLetter || (status.Moved? && status.reason.mode == Auto))
    ensures status == NoSafeMoves ==> a' == a.(gameOver := true)
    ensures status == NoColumnLetter ==> a' == a
    ensures status == NoColumnLetter && manual.None? ==>
      exists b :: EnginePick(VisibleGrid(a.world), a.pos, b) && b != a.pos && b.1 >= |Columns(a.world.size)|
    ensures status.Moved? ==>
      && Adjacent(a.pos, a'.pos) && InBounds(a.world, a'.pos) && a'.pos.1 < |Columns(a.world.size)|
      && a'.visited == a.visited + {a'.pos} && a'.world.visited == a'.visited
      && a'.history == a.history + [HistoryEntry(PosToLabel(a'.pos, a.world.size), status.reason)]
      && status.reason.outcome == OutcomeOf(ContentAt(a.world, a'.pos))
      && (a'.gameOver <==> ContentAt(a.world, a'.pos) != EmptyCell)
      && MoveAgent(a.world, a'.pos) == Success((a'.world, ContentAt(a.world, a'.pos), GetPercepts(a.world, a'.pos)))
    ensures status.Moved? && status.reason.mode == Auto ==>
      EnginePick(VisibleGrid(a.world), a.pos, a'.pos) && a'.pos !in Classify(VisibleGrid(a.world)).dangerous
  {
    SyncIsIdentity(a);
    if a.gameOver {
      return Sync(a), GameAlreadyOver;
    }
    if manual.None? {
      a', status := AutoMove(a);
      return;
    }
    var target := manual.value;
    if !InBounds(a.world, target) {
      return Sync(a), OffBoard;
    }
    if !IsAdjacent(a.pos, target) {
      return Sync(a), NotNeighbour;
    }
    a', status := Commit(a, target, Manual);
  }
}
