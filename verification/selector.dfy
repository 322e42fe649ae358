/** Move selection: `get_best_move_and_reason` of backend/app.py, with the previous cell
    passed in, and `get_best_move` of backend/game/logic.py, which is the same engine with
    no previous cell. */
module Selector {
  import opened Basics
  import opened Geometry
  import opened Cells
  import opened Deduction
  import opened Search

  /** Which rule chose the move (the source explains each with an English reason). */
  datatype Rule =
    | ReturnToPrevious         // trapped: go back to the previous cell
    | LeaveByVisitedNeighbour  // trapped: step onto a visited neighbour that is not the previous cell
    | TowardSafe               // first step towards the nearest safe unknown cell
    | AtSafe                   // the agent's own cell is a safe unknown cell
    | TowardRisky              // first step towards the nearest risky unknown cell
    | AtRisky                  // the agent's own cell is a risky unknown cell
    | NoMove                   // nothing found: stay in place

  /** The two neighbour lists built around the agent. */
  datatype Kind = UnknownKind | OpenKind

  /** An "open" cell: visited, and labelled neither pit nor wumpus. */
  predicate OpenAt(g: Grid, q: Pos)
    requires Rectangular(g)
  {
    VisitedAt(g, q) && !IsHazardLabel(At(g, q))
  }

  predicate Fits(g: Grid, q: Pos, kind: Kind)
    requires Rectangular(g)
  {
    match kind
    case UnknownKind => UnknownAt(g, q)
    case OpenKind => OpenAt(g, q)
  }

  /** The directions (among the first `k`) whose cell goes into the `kind` list, in scan order. */
  function Gather(g: Grid, pos: Pos, k: nat, kind: Kind): (ks: seq<nat>)
    requires Rectangular(g) && k <= 8
    ensures forall i :: 0 <= i < |ks| ==> ks[i] < k && Fits(g, Offset(pos, ks[i]), kind)
    ensures forall i, j :: 0 <= i < j < |ks| ==> ks[i] < ks[j]
    ensures forall j :: 0 <= j < k && Fits(g, Offset(pos, j), kind) ==> j in ks
  {
    if k == 0 then []
    else
      var ks := Gather(g, pos, k - 1, kind);
      if Fits(g, Offset(pos, k - 1), kind) then ks + [k - 1] else ks
  }

  /** The position of the first listed direction whose cell is not the previous cell. */
  function FirstOther(pos: Pos, ks: seq<nat>, prev: Option<Pos>, from: nat): (r: Option<nat>)
    requires forall i :: 0 <= i < |ks| ==> ks[i] < 8
    requires from <= |ks|
    ensures r.Some? ==>
      from <= r.value < |ks| && Some(Offset(pos, ks[r.value])) != prev
      && forall i :: from <= i < r.value ==> Some(Offset(pos, ks[i])) == prev
    ensures r.None? ==> forall i :: from <= i < |ks| ==> Some(Offset(pos, ks[i])) == prev
    decreases |ks| - from
  {
    if from == |ks| then None
    else if prev.None? || Offset(pos, ks[from]) != prev.value then Some(from)
    else FirstOther(pos, ks, prev, from + 1)
  }

  /** The `all_dangerous` scan: every in-grid neighbour other than `prev` is labelled pit or wumpus. */
  predicate OthersAllHazards(g: Grid, pos: Pos, prev: Pos)
    requires Rectangular(g)
  {
    forall k :: 0 <= k < 8 && InGrid(g, Offset(pos, k)) && Offset(pos, k) != prev ==> IsHazardLabel(At(g, Offset(pos, k)))
  }

  /** A listed direction at or after `from` leading somewhere other than `prev` is found. */
  lemma FirstOtherFinds(pos: Pos, ks: seq<nat>, prev: Option<Pos>, from: nat, i: nat)
    requires forall j :: 0 <= j < |ks| ==> ks[j] < 8
    requires from <= i < |ks| && Some(Offset(pos, ks[i])) != prev
    ensures FirstOther(pos, ks, prev, from).Some?
  {
  }

  /** The "trapped" rule, as written: `None` means control falls through to the searches. */
  function Trapped(g: Grid, safe: set<Pos>, pos: Pos, prev: Option<Pos>): Option<(Pos, Rule)>
    requires Rectangular(g)
  {
    var unknown := Gather(g, pos, 8, UnknownKind);
    var open := Gather(g, pos, 8, OpenKind);
    var allUnknownNotSafe := |unknown| > 0 && forall i :: 0 <= i < |unknown| ==> Offset(pos, unknown[i]) !in safe;
    if allUnknownNotSafe && |open| > 0 then
      if |open| == 1 && prev.Some? && Offset(pos, open[0]) == prev.value then
        if OthersAllHazards(g, pos, prev.value) then Some((prev.value, ReturnToPrevious)) else None
      else
        match FirstOther(pos, open, prev, 0)
        case Some(i) => Some((Offset(pos, open[i]), LeaveByVisitedNeighbour))
        case None => None
    else None
  }

  /** When the trapped rule applies: the agent has an unknown neighbour, none of its unknown
      neighbours is safe, and some open neighbour is not the previous cell. */
  ghost predicate TrappedApplies(g: Grid, safe: set<Pos>, pos: Pos, prev: Option<Pos>)
    requires Rectangular(g)
  {
    && (exists q :: Adjacent(pos, q) && UnknownAt(g, q))
    && (forall q :: Adjacent(pos, q) && UnknownAt(g, q) ==> q !in safe)
    && (exists q :: Adjacent(pos, q) && OpenAt(g, q) && Some(q) != prev)
  }

  /** Direction `k` is the first, in scan order, leading to an open cell other than `prev`. */
  predicate FirstOpenOther(g: Grid, pos: Pos, prev: Option<Pos>, k: nat)
    requires Rectangular(g)
  {
    && k < 8
    && OpenAt(g, Offset(pos, k)) && Some(Offset(pos, k)) != prev
    && forall j :: 0 <= j < k ==> !(OpenAt(g, Offset(pos, j)) && Some(Offset(pos, j)) != prev)
  }

  /** The return-to-previous branch can never fire: its guard needs an unknown neighbour, and
      that neighbour (which is not the previous cell) makes the all-hazards scan fail. */
  lemma ReturnToPreviousNeverFires(g: Grid, safe: set<Pos>, pos: Pos, prev: Option<Pos>)
    requires Rectangular(g)
    ensures Trapped(g, safe, pos, prev).Some? ==> Trapped(g, safe, pos, prev).value.1 == LeaveByVisitedNeighbour
  {
    var unknown := Gather(g, pos, 8, UnknownKind);
    var open := Gather(g, pos, 8, OpenKind);
    if |unknown| > 0 && |open| == 1 && prev.Some? && Offset(pos, open[0]) == prev.value {
      var q := Offset(pos, unknown[0]);
      assert UnknownAt(g, q) && q != prev.value;
      assert !OthersAllHazards(g, pos, prev.value);
    }
  }

  /** Every adjacent cell of the right kind is named in the gathered list. */
  lemma GatherComplete(g: Grid, pos: Pos, kind: Kind, q: Pos)
    requires Rectangular(g)
    requires Adjacent(pos, q) && Fits(g, q, kind)
    ensures exists i :: 0 <= i < |Gather(g, pos, 8, kind)| && Offset(pos, Gather(g, pos, 8, kind)[i]) == q
  {
    AdjacentIsOffset(pos, q);
    var k :| 0 <= k < 8 && q == Offset(pos, k);
    var ks := Gather(g, pos, 8, kind);
    assert k in ks;
    var i :| 0 <= i < |ks| && ks[i] == k;
  }

  /** When the trapped rule fires, it applies, and it picks the first open neighbour other
      than the previous cell. */
  lemma TrappedSound(g: Grid, safe: set<Pos>, pos: Pos, prev: Option<Pos>)
    requires Rectangular(g)
    requires Trapped(g, safe, pos, prev).Some?
    ensures TrappedApplies(g, safe, pos, prev)
    ensures Trapped(g, safe, pos, prev).value.1 == LeaveByVisitedNeighbour
    ensures exists k :: FirstOpenOther(g, pos, prev, k) && Trapped(g, safe, pos, prev).value.0 == Offset(pos, k)
  {
    ReturnToPreviousNeverFires(g, safe, pos, prev);
    var unknown := Gather(g, pos, 8, UnknownKind);
    var open := Gather(g, pos, 8, OpenKind);
    OffsetIsAdjacent(pos, unknown[0]);
    assert Adjacent(pos, Offset(pos, unknown[0])) && UnknownAt(g, Offset(pos, unknown[0]));
    forall q | Adjacent(pos, q) && UnknownAt(g, q)
      ensures q !in safe
    {
      GatherComplete(g, pos, UnknownKind, q);
    }
    var i := FirstOther(pos, open, prev, 0).value;
    var k := open[i];
    OffsetIsAdjacent(pos, k);
    assert Adjacent(pos, Offset(pos, k)) && OpenAt(g, Offset(pos, k)) && Some(Offset(pos, k)) != prev;
    forall j | 0 <= j < k && OpenAt(g, Offset(pos, j))
      ensures Some(Offset(pos, j)) == prev
    {
      assert j in open;
      var i' :| 0 <= i' < |open| && open[i'] == j;
    }
    assert FirstOpenOther(g, pos, prev, k);
  }

  /** The unknown-neighbour half of the trapped guard holds when the rule applies. */
  lemma UnknownGuardHolds(g: Grid, safe: set<Pos>, pos: Pos, prev: Option<Pos>)
    requires Rectangular(g)
    requires TrappedApplies(g, safe, pos, prev)
    ensures var unknown := Gather(g, pos, 8, UnknownKind);
      |unknown| > 0 && forall i :: 0 <= i < |unknown| ==> Offset(pos, unknown[i]) !in safe
  {
    var unknown := Gather(g, pos, 8, UnknownKind);
    var u :| Adjacent(pos, u) && UnknownAt(g, u);
    GatherComplete(g, pos, UnknownKind, u);
    forall i | 0 <= i < |unknown|
      ensures Offset(pos, unknown[i]) !in safe
    {
      OffsetIsAdjacent(pos, unknown[i]);
      assert Fits(g, Offset(pos, unknown[i]), UnknownKind);
    }
  }

  /** The open-neighbour half of the trapped guard holds when the rule applies, and the
      search for an open neighbour other than the previous cell succeeds. */
  lemma OpenGuardHolds(g: Grid, safe: set<Pos>, pos: Pos, prev: Option<Pos>)
    requires Rectangular(g)
    requires TrappedApplies(g, safe, pos, prev)
    ensures var open := Gather(g, pos, 8, OpenKind);
      && |open| > 0
      && !(|open| == 1 && prev.Some? && Offset(pos, open[0]) == prev.value)
      && FirstOther(pos, open, prev, 0).Some?
  {
    var open := Gather(g, pos, 8, OpenKind);
    var q :| Adjacent(pos, q) && OpenAt(g, q) && Some(q) != prev;
    GatherComplete(g, pos, OpenKind, q);
    var iq :| 0 <= iq < |open| && Offset(pos, open[iq]) == q;
    FirstOtherFinds(pos, open, prev, 0, iq);
  }

  /** When the trapped rule applies, it fires. */
  lemma TrappedComplete(g: Grid, safe: set<Pos>, pos: Pos, prev: Option<Pos>)
    requires Rectangular(g)
    requires TrappedApplies(g, safe, pos, prev)
    ensures Trapped(g, safe, pos, prev).Some?
  {
    UnknownGuardHolds(g, safe, pos, prev);
    OpenGuardHolds(g, safe, pos, prev);
  }

  /** The trapped rule fires exactly when it applies, and then picks the first open neighbour
      other than the previous cell. */
  lemma TrappedMeaning(g: Grid, safe: set<Pos>, pos: Pos, prev: Option<Pos>)
    requires Rectangular(g)
    ensures Trapped(g, safe, pos, prev).Some? <==> TrappedApplies(g, safe, pos, prev)
    ensures Trapped(g, safe, pos, prev).Some? ==>
      Trapped(g, safe, pos, prev).value.1 == LeaveByVisitedNeighbour
      && exists k :: FirstOpenOther(g, pos, prev, k) && Trapped(g, safe, pos, prev).value.0 == Offset(pos, k)
  {
    if Trapped(g, safe, pos, prev).Some? {
      TrappedSound(g, safe, pos, prev);
    }
    if TrappedApplies(g, safe, pos, prev) {
      TrappedComplete(g, safe, pos, prev);
    }
  }

  /** `w` is the search's answer: a shortest walk from `start` to a target, and among those
      the first in scan order. */
  ghost predicate NearestWalk(g: Grid, danger: set<Pos>, start: Pos, targets: set<Pos>, w: seq<Pos>)
    requires Rectangular(g)
  {
    && IsWalk(g, danger, start, w) && IsTarget(g, targets, Last(start, w))
    && (forall v :: IsWalk(g, danger, start, v) && IsTarget(g, targets, Last(start, v)) ==> |w| <= |v|)
    && (forall v :: IsWalk(g, danger, start, v) && IsTarget(g, targets, Last(start, v)) ==> NotAfter(start, w, v))
  }

  /** The search's answer is determined by the grid: two walks that both come first are the same. */
  lemma NearestWalkUnique(g: Grid, danger: set<Pos>, start: Pos, targets: set<Pos>, w1: seq<Pos>, w2: seq<Pos>)
    requires Rectangular(g)
    requires NearestWalk(g, danger, start, targets, w1) && NearestWalk(g, danger, start, targets, w2)
    ensures w1 == w2
  {
    assert NotAfter(start, w1, w2) && NotAfter(start, w2, w1);
    if w1 != w2 {
      EarlierTrans(start, w1, w2, w1);
      EarlierIrreflexive(start, w1);
      assert false;
    }
  }

  /** Some target can be reached from `start` without entering a dangerous cell. */
  ghost predicate Reachable(g: Grid, danger: set<Pos>, start: Pos, targets: set<Pos>)
    requires Rectangular(g)
  {
    exists v :: IsWalk(g, danger, start, v) && IsTarget(g, targets, Last(start, v))
  }

  /** The decision engine: deduce, then the trapped rule, the search for the nearest safe
      unknown cell, the search for the nearest risky unknown cell, and finally staying put.
      The ghost `w` is the walk behind a search answer. */
  method BestMoveAndReason(g: Grid, pos: Pos, prev: Option<Pos>) returns (move: Pos, rule: Rule, ghost w: seq<Pos>)
    requires Rectangular(g)
    ensures move == pos || (InGrid(g, move) && Adjacent(pos, move))
    ensures rule != ReturnToPrevious
    ensures rule != NoMove ==> move !in Classify(g).dangerous
    ensures rule == LeaveByVisitedNeighbour <==> TrappedApplies(g, Classify(g).safe, pos, prev)
    ensures rule == LeaveByVisitedNeighbour ==> exists k :: FirstOpenOther(g, pos, prev, k) && move == Offset(pos, k)
    ensures rule == TowardSafe || rule == AtSafe ==>
      NearestWalk(g, Classify(g).dangerous, pos, Classify(g).safe, w) && move == FirstStep(pos, w)
      && (rule == AtSafe <==> |w| == 0)
    ensures rule == TowardRisky || rule == AtRisky || rule == NoMove ==>
      !Reachable(g, Classify(g).dangerous, pos, Classify(g).safe)
    ensures rule == TowardRisky || rule == AtRisky ==>
      NearestWalk(g, Classify(g).dangerous, pos, Classify(g).risky, w) && move == FirstStep(pos, w)
      && (rule == AtRisky <==> |w| == 0)
    ensures rule == NoMove ==> move == pos && !Reachable(g, Classify(g).dangerous, pos, Classify(g).risky)
  {
    var cls := Classify(g);
    ClassesDisjoint(g);
    TrappedMeaning(g, cls.safe, pos, prev);
    w := [];
    var trapped := Trapped(g, cls.safe, pos, prev);
    if trapped.Some? {
      move, rule := trapped.value.0, trapped.value.1;
      var k :| FirstOpenOther(g, pos, prev, k) && move == Offset(pos, k);
      OffsetIsAdjacent(pos, k);
      return;
    }
    var safeStep, ws := NearestStep(g, pos, cls.safe, cls.dangerous);
    if safeStep.Some? {
      move, w := safeStep.value, ws;
      rule := if move != pos then TowardSafe else AtSafe;
      return;
    }
    var riskyStep, wr := NearestStep(g, pos, cls.risky, cls.dangerous);
    if riskyStep.Some? {
      move, w := riskyStep.value, wr;
      rule := if move != pos then TowardRisky else AtRisky;
      return;
    }
    move, rule := pos, NoMove;
  }

  /** No rule of the engine without a previous cell finds a move: the trapped rule does not
      apply, and neither a safe nor a risky unknown cell can be reached. */
  ghost predicate Stuck(g: Grid, pos: Pos)
    requires Rectangular(g)
  {
    var cls := Classify(g);
    && !TrappedApplies(g, cls.safe, pos, None)
    && !Reachable(g, cls.dangerous, pos, cls.safe)
    && !Reachable(g, cls.dangerous, pos, cls.risky)
  }

  /** The answers `get_best_move` may give: the first open neighbour when the trapped rule
      applies, else the first step of a shortest walk to a safe unknown cell, else of one to a
      risky unknown cell, else the agent's own cell. */
  ghost predicate EnginePick(g: Grid, pos: Pos, move: Pos)
    requires Rectangular(g)
  {
    var cls := Classify(g);
    && (TrappedApplies(g, cls.safe, pos, None) ==>
          exists k :: FirstOpenOther(g, pos, None, k) && move == Offset(pos, k))
    && (!TrappedApplies(g, cls.safe, pos, None) && Reachable(g, cls.dangerous, pos, cls.safe) ==>
          exists w :: NearestWalk(g, cls.dangerous, pos, cls.safe, w) && move == FirstStep(pos, w))
    && (!TrappedApplies(g, cls.safe, pos, None) && !Reachable(g, cls.dangerous, pos, cls.safe)
        && Reachable(g, cls.dangerous, pos, cls.risky) ==>
          exists w :: NearestWalk(g, cls.dangerous, pos, cls.risky, w) && move == FirstStep(pos, w))
    && (Stuck(g, pos) ==> move == pos)
  }

  /** `get_best_move` of logic.py: the engine without a previous cell. */
  method GetBestMove(g: Grid, pos: Pos) returns (move: Pos)
    requires Rectangular(g)
    ensures move == pos || (InGrid(g, move) && Adjacent(pos, move))
    ensures move != pos ==> move !in Classify(g).dangerous
    ensures EnginePick(g, pos, move)
  {
    var rule;
    ghost var w;
    move, rule, w := BestMoveAndReason(g, pos, None);
  }

  /** `get_best_move` is a function of the board: any two answers the engine may give agree. */
  lemma EnginePickIsUnique(g: Grid, pos: Pos, m1: Pos, m2: Pos)
    requires Rectangular(g)
    requires EnginePick(g, pos, m1) && EnginePick(g, pos, m2)
    ensures m1 == m2
  {
    var cls := Classify(g);
    if TrappedApplies(g, cls.safe, pos, None) {
      var k1: nat :| FirstOpenOther(g, pos, None, k1) && m1 == Offset(pos, k1);
      var k2: nat :| FirstOpenOther(g, pos, None, k2) && m2 == Offset(pos, k2);
      assert !(k1 < k2) && !(k2 < k1);
    } else if Reachable(g, cls.dangerous, pos, cls.safe) {
      var w1 :| NearestWalk(g, cls.dangerous, pos, cls.safe, w1) && m1 == FirstStep(pos, w1);
      var w2 :| NearestWalk(g, cls.dangerous, pos, cls.safe, w2) && m2 == FirstStep(pos, w2);
      NearestWalkUnique(g, cls.dangerous, pos, cls.safe, w1, w2);
    } else if Reachable(g, cls.dangerous, pos, cls.risky) {
      var w1 :| NearestWalk(g, cls.dangerous, pos, cls.risky, w1) && m1 == FirstStep(pos, w1);
      var w2 :| NearestWalk(g, cls.dangerous, pos, cls.risky, w2) && m2 == FirstStep(pos, w2);
      NearestWalkUnique(g, cls.dangerous, pos, cls.risky, w1, w2);
    }
  }

  /** When the agent stands on a visited cell, the engine stays put exactly when it is stuck:
      every rule that fires moves to a neighbour. */
  lemma StaysExactlyWhenStuck(g: Grid, pos: Pos)
    requires Rectangular(g) && VisitedAt(g, pos)
    ensures forall move :: EnginePick(g, pos, move) ==> (move == pos <==> Stuck(g, pos))
  {
    var cls := Classify(g);
    forall move | EnginePick(g, pos, move)
      ensures move == pos <==> Stuck(g, pos)
    {
      if TrappedApplies(g, cls.safe, pos, None) {
        var k :| FirstOpenOther(g, pos, None, k) && move == Offset(pos, k);
        OffsetIsAdjacent(pos, k);
      } else if Reachable(g, cls.dangerous, pos, cls.safe) {
        var w :| NearestWalk(g, cls.dangerous, pos, cls.safe, w) && move == FirstStep(pos, w);
        WalkLeavesVisitedStart(g, cls.dangerous, pos, cls.safe, w);
      } else if Reachable(g, cls.dangerous, pos, cls.risky) {
        var w :| NearestWalk(g, cls.dangerous, pos, cls.risky, w) && move == FirstStep(pos, w);
        WalkLeavesVisitedStart(g, cls.dangerous, pos, cls.risky, w);
      }
    }
  }

  /** A search answer from a visited cell is a real step: targets are unknown cells, so the
      walk is not empty and its first cell is a neighbour. */
  lemma WalkLeavesVisitedStart(g: Grid, danger: set<Pos>, pos: Pos, targets: set<Pos>, w: seq<Pos>)
    requires Rectangular(g) && VisitedAt(g, pos)
    requires NearestWalk(g, danger, pos, targets, w)
    ensures FirstStep(pos, w) != pos
  {
    assert |w| > 0;
    assert Step(g, danger, Before(pos, w, 0), w[0]);
  }
}
