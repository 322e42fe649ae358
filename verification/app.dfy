/** The explaining engine of backend/app.py: `get_best_move_and_reason` reads the previous
    cell from the agent's move history by parsing the second-to-last board label, and then
    runs the shared move selection with it. */
module App {
  import opened Basics
  import opened Geometry
  import opened Cells
  import opened Deduction
  import opened Search
  import opened Selector
  import opened MoveLabels
  import opened WorldModel
  import opened AgentModel

  /** `prev_cell`: none while the history has fewer than two entries, otherwise the cell named
      by the second-to-last label. A label that does not parse is an error (the source raises). */
  function PrevCell(history: seq<HistoryEntry>, cols: int): (r: Result<Option<Pos>, LabelError>)
    ensures |history| < 2 <==> r == Success(None)
    ensures |history| >= 2 ==>
      (r.Failure? <==> ParseLabel(history[|history| - 2].boardLabel, cols).Failure?)
    ensures r.Success? && r.value.Some? ==>
      0 <= r.value.value.1 < |Columns(cols)|
      && history[|history| - 2].boardLabel[0] == Letters[r.value.value.1]
      && ParseInt(history[|history| - 2].boardLabel[1..]) == Some(r.value.value.0 + 1)
  {
    if |history| < 2 then Success(None)
    else match ParseLabel(history[|history| - 2].boardLabel, cols)
      case Failure(e) => Failure(e)
      case Success(p) => Success(Some(p))
  }

  /** When the second-to-last entry was logged for a cell, the previous cell is that cell. */
  lemma PrevCellOfLoggedMoves(history: seq<HistoryEntry>, cols: int, p: Pos)
    requires 0 <= p.1 < |Columns(cols)|
    requires |history| >= 2 && history[|history| - 2].boardLabel == PosToLabel(p, cols)
    ensures PrevCell(history, cols) == Success(Some(p))
  {
    LabelRoundTrip(p, cols);
  }

  /** A label `make_move` can have logged on a board of this size. */
  ghost predicate BoardLabel(l: string, size: int)
  {
    exists p: Pos :: 0 <= p.0 < size && 0 <= p.1 < size && p.1 < |Columns(size)| && l == PosToLabel(p, size)
  }

  /** Every history entry names a board cell. */
  ghost predicate Logged(a: Agent)
  {
    forall i :: 0 <= i < |a.history| ==> BoardLabel(a.history[i].boardLabel, a.world.size)
  }

  /** On a history of logged moves the previous cell always parses, and it is on the board. */
  lemma LoggedPrevCellParses(a: Agent)
    requires Logged(a)
    ensures PrevCell(a.history, a.world.size).Success?
    ensures var r := PrevCell(a.history, a.world.size);
      r.value.Some? ==> 0 <= r.value.value.0 < a.world.size && 0 <= r.value.value.1 < a.world.size
  {
    var h := a.history;
    if |h| >= 2 {
      assert BoardLabel(h[|h| - 2].boardLabel, a.world.size);
      var p: Pos :| 0 <= p.0 < a.world.size && 0 <= p.1 < a.world.size && p.1 < |Columns(a.world.size)|
                    && h[|h| - 2].boardLabel == PosToLabel(p, a.world.size);
      PrevCellOfLoggedMoves(h, a.world.size, p);
    }
  }

  /** `make_move` keeps the history made of board labels. */
  method MoveLogged(a: Agent, manual: Option<Pos>) returns (a': Agent, status: Status)
    requires AgentInv(a) && Logged(a)
    ensures AgentInv(a') && Logged(a')
    ensures |a'.history| == |a.history| + (if status.Moved? then 1 else 0)
  {
    a', status := MakeMove(a, manual);
    if status.Moved? {
      LoggedAppend(a, a', status.reason);
    } else {
      LoggedFrame(a, a');
    }
  }

  lemma LoggedAppend(a: Agent, a': Agent, reason: Reason)
    requires Logged(a) && a'.world.size == a.world.size
    requires InBounds(a.world, a'.pos) && a'.pos.1 < |Columns(a.world.size)|
    requires a'.history == a.history + [HistoryEntry(PosToLabel(a'.pos, a.world.size), reason)]
    ensures Logged(a')
  {
    assert BoardLabel(PosToLabel(a'.pos, a.world.size), a'.world.size);
    forall i | 0 <= i < |a'.history|
      ensures BoardLabel(a'.history[i].boardLabel, a'.world.size)
    {
      if i < |a.history| {
        assert a'.history[i] == a.history[i];
      }
    }
  }

  lemma LoggedFrame(a: Agent, a': Agent)
    requires Logged(a) && a'.world.size == a.world.size && a'.history == a.history
    ensures Logged(a')
  {
  }

  /** After `reset` the history is empty: it holds only board labels and names no previous cell. */
  lemma ResetLogged(a: Agent)
    requires Board(a.world)
    ensures Logged(ResetAgent(a)) && PrevCell(ResetAgent(a).history, a.world.size) == Success(None)
  {
  }

  /** `get_best_move_and_reason`: parse the previous cell out of the history, then select the
      move with it. A failing parse is reported instead of a move. */
  method BestMoveWithHistory(g: Grid, pos: Pos, history: seq<HistoryEntry>)
    returns (r: Result<(Pos, Rule), LabelError>)
    requires Rectangular(g)
    ensures r.Failure? <==> PrevCell(history, Cols(g)).Failure?
    ensures r.Success? ==>
      var (move, rule) := r.value;
      var prev := PrevCell(history, Cols(g)).value;
      && (move == pos || (InGrid(g, move) && Adjacent(pos, move)))
      && rule != ReturnToPrevious
      && (rule != NoMove ==> move !in Classify(g).dangerous)
      && (rule == LeaveByVisitedNeighbour <==> TrappedApplies(g, Classify(g).safe, pos, prev))
      && (rule == LeaveByVisitedNeighbour ==> exists k :: FirstOpenOther(g, pos, prev, k) && move == Offset(pos, k))
      && (rule == TowardSafe || rule == AtSafe ==>
            exists w :: NearestWalk(g, Classify(g).dangerous, pos, Classify(g).safe, w) && move == FirstStep(pos, w)
                        && (rule == AtSafe <==> |w| == 0))
      && (rule == TowardRisky || rule == AtRisky || rule == NoMove ==>
            !Reachable(g, Classify(g).dangerous, pos, Classify(g).safe))
      && (rule == TowardRisky || rule == AtRisky ==>
            exists w :: NearestWalk(g, Classify(g).dangerous, pos, Classify(g).risky, w) && move == FirstStep(pos, w)
                        && (rule == AtRisky <==> |w| == 0))
      && (rule == NoMove ==> move == pos && !Reachable(g, Classify(g).dangerous, pos, Classify(g).risky))
  {
    var prev := PrevCell(history, Cols(g));
    if prev.Failure? {
      return Failure(prev.error);
    }
    var move, rule, w := BestMoveAndReason(g, pos, prev.value);
    r := Success((move, rule));
  }
}
