/** How the deduction of backend/game/logic.py relates to the world of backend/game/world.py
    when it is fed the world's own visible grid. */
module Soundness {
  import opened Geometry
  import opened Cells
  import opened Deduction
  import opened WorldModel

  /** The engine's visited set is exactly the world's visited set. */
  lemma VisitedAgrees(w: World)
    requires WorldInv(w)
    ensures Classify(VisibleGrid(w)).visited == w.visited
  {
    ShownVisited(w);
  }

  lemma ShownVisited(w: World)
    requires Shaped(w) && forall p :: p in w.visited ==> InBounds(w, p)
    ensures Classify(VisibleGrid(w)).visited == w.visited
  {
    var g := VisibleGrid(w);
    var cls := Classify(g);
    forall p | p in cls.visited
      ensures p in w.visited
    {
      assert VisitedAt(g, p);
    }
    forall p | p in w.visited
      ensures p in cls.visited
    {
      assert VisitedAt(g, p);
    }
  }

  /** A visited cell shown as clean has no pit and no wumpus in its closed neighbourhood. */
  lemma CleanMeansNoHazardNear(w: World, q: Pos)
    requires WorldInv(w) && q in w.visited
    ensures InBounds(w, q)
    ensures IsClean(At(VisibleGrid(w), q)) ==>
      forall p :: Near(q, p) && InBounds(w, p) ==> ContentAt(w, p) != PitCell && ContentAt(w, p) != WumpusCell
  {
    assert InBounds(w, q);
    if IsClean(At(VisibleGrid(w), q)) {
      assert ContentAt(w, q) == EmptyCell;
      var ps := GetPercepts(w, q);
      assert Cached(w, q) == ps;
      assert Breeze !in ps && Stench !in ps;
      PerceptsMeaning(w, q);
    }
  }

  /** Every cell the engine deduces to be safe is unvisited and truly holds neither a pit nor a
      wumpus: the "white neighbour" rule is sound for the percepts the world produces. */
  lemma SafeIsSafe(w: World)
    requires WorldInv(w)
    ensures forall p :: p in Classify(VisibleGrid(w)).safe ==> p !in w.visited && IsSafe(w, p)
  {
    var g := VisibleGrid(w);
    forall p | p in Classify(g).safe
      ensures p !in w.visited && IsSafe(w, p)
    {
      assert UnknownAt(g, p) && HasCleanNeighbour(g, p);
      var q :| Adjacent(p, q) && VisitedAt(g, q) && IsClean(At(g, q));
      assert q in w.visited;
      CleanMeansNoHazardNear(w, q);
      assert Near(q, p);
    }
  }

  /** A visited cell the engine marks dangerous really holds a pit or a wumpus. */
  lemma VisitedDangerIsReal(w: World)
    requires WorldInv(w)
    ensures forall p :: p in Classify(VisibleGrid(w)).dangerous && p in w.visited ==> !IsSafe(w, p)
  {
    forall p | p in Classify(VisibleGrid(w)).dangerous && p in w.visited
      ensures !IsSafe(w, p)
    {
      ShownHazard(w, p);
    }
  }

  lemma ShownHazard(w: World, p: Pos)
    requires Shaped(w) && InBounds(w, p) && p in w.visited
    requires p in Classify(VisibleGrid(w)).dangerous
    ensures ContentAt(w, p) == PitCell || ContentAt(w, p) == WumpusCell
  {
    var g := VisibleGrid(w);
    assert VisitedAt(g, p);
    assert IsHazardLabel(At(g, p));
  }
}
