/** The single-pass deduction of backend/game/logic.py (and its copy in backend/app.py):
    which cells are visited, and which unknown cells are safe, dangerous or risky,
    judged from the labels of their visited 8-neighbours. */
module Deduction {
  import opened Geometry
  import opened Cells

  /** What the scan over an unknown cell's visited neighbours found. */
  datatype Evidence = Evidence(
    hasVisited: bool,  // some in-grid neighbour is visited
    hasClean: bool,    // some visited neighbour is a clean ("white") cell
    allSensed: bool,   // every visited neighbour mentions breeze or stench
    anySensed: bool    // some visited neighbour mentions breeze or stench
  )

  /** The flags after scanning directions 0 .. k-1 around `p`, in scan order. */
  function Scan(g: Grid, p: Pos, k: nat): (e: Evidence)
    requires Rectangular(g) && k <= 8
    ensures e.hasVisited <==> exists j :: 0 <= j < k && VisitedAt(g, Offset(p, j))
    ensures e.hasClean <==> exists j :: 0 <= j < k && VisitedAt(g, Offset(p, j)) && IsClean(At(g, Offset(p, j)))
    ensures e.allSensed <==> forall j :: 0 <= j < k && VisitedAt(g, Offset(p, j)) ==> IsSensed(At(g, Offset(p, j)))
    ensures e.anySensed <==> exists j :: 0 <= j < k && VisitedAt(g, Offset(p, j)) && IsSensed(At(g, Offset(p, j)))
  {
    if k == 0 then Evidence(false, false, true, false)
    else
      var e := Scan(g, p, k - 1);
      var q := Offset(p, k - 1);
      if !VisitedAt(g, q) then e
      else
        var l := At(g, q);
        Evidence(true, e.hasClean || IsClean(l), e.allSensed && IsSensed(l), e.anySensed || IsSensed(l))
  }

  /** The class the source gives an unknown cell. */
  datatype Verdict = Unclassified | SafeCell | DangerousCell | RiskyCell

  /** The if/elif chain deciding the class from the evidence. */
  function Judge(e: Evidence): Verdict
  {
    if !e.hasVisited then Unclassified
    else if e.hasClean then SafeCell
    else if e.allSensed then DangerousCell
    else if e.anySensed then RiskyCell
    else Unclassified
  }

  function VerdictAt(g: Grid, p: Pos): Verdict
    requires Rectangular(g)
  {
    Judge(Scan(g, p, 8))
  }

  /** The four sets the engine derives afresh every turn. */
  datatype Classification = Classification(visited: set<Pos>, safe: set<Pos>, dangerous: set<Pos>, risky: set<Pos>)

  // Declarative descriptions of the neighbourhood evidence, phrased with adjacency
  // rather than with the direction list.

  ghost predicate HasVisitedNeighbour(g: Grid, p: Pos)
    requires Rectangular(g)
  {
    exists q :: Adjacent(p, q) && VisitedAt(g, q)
  }

  ghost predicate HasCleanNeighbour(g: Grid, p: Pos)
    requires Rectangular(g)
  {
    exists q :: Adjacent(p, q) && VisitedAt(g, q) && IsClean(At(g, q))
  }

  ghost predicate HasSensedNeighbour(g: Grid, p: Pos)
    requires Rectangular(g)
  {
    exists q :: Adjacent(p, q) && VisitedAt(g, q) && IsSensed(At(g, q))
  }

  ghost predicate AllNeighboursSensed(g: Grid, p: Pos)
    requires Rectangular(g)
  {
    forall q :: Adjacent(p, q) && VisitedAt(g, q) ==> IsSensed(At(g, q))
  }

  /** The scan over the direction list agrees with the adjacency descriptions. */
  lemma ScanMeaning(g: Grid, p: Pos)
    requires Rectangular(g)
    ensures Scan(g, p, 8).hasVisited <==> HasVisitedNeighbour(g, p)
    ensures Scan(g, p, 8).hasClean <==> HasCleanNeighbour(g, p)
    ensures Scan(g, p, 8).anySensed <==> HasSensedNeighbour(g, p)
    ensures Scan(g, p, 8).allSensed <==> AllNeighboursSensed(g, p)
  {
    forall q | Adjacent(p, q)
      ensures exists k :: 0 <= k < 8 && q == Offset(p, k)
    {
      AdjacentIsOffset(p, q);
    }
    forall k | 0 <= k < 8
      ensures Adjacent(p, Offset(p, k))
    {
      OffsetIsAdjacent(p, k);
    }
  }

  /** Steps 1 to 3 of the deduction: mark visited cells and visited hazards, judge every
      unknown cell, then remove safe and dangerous cells from the risky set. */
  function Classify(g: Grid): (cls: Classification)
    requires Rectangular(g)
    ensures forall p :: p in cls.visited <==> VisitedAt(g, p)
    ensures forall p :: p in cls.safe <==> UnknownAt(g, p) && HasCleanNeighbour(g, p)
    ensures forall p :: p in cls.dangerous <==>
      (VisitedAt(g, p) && IsHazardLabel(At(g, p)))
      || (UnknownAt(g, p) && HasVisitedNeighbour(g, p) && !HasCleanNeighbour(g, p) && AllNeighboursSensed(g, p))
    ensures forall p :: p in cls.risky <==>
      UnknownAt(g, p) && !HasCleanNeighbour(g, p) && HasSensedNeighbour(g, p) && !AllNeighboursSensed(g, p)
  {
    var cells := AllCells(Rows(g), Cols(g));
    var visited := set p | p in cells && At(g, p) != Unknown;
    var hazards := set p | p in visited && IsHazardLabel(At(g, p));
    var unknown := set p | p in cells && At(g, p) == Unknown;
    var safe := set p | p in unknown && VerdictAt(g, p) == SafeCell;
    var dangerous := hazards + set p | p in unknown && VerdictAt(g, p) == DangerousCell;
    var risky := (set p | p in unknown && VerdictAt(g, p) == RiskyCell) - safe - dangerous;
    ClassificationMeaning(g, safe, dangerous, risky, hazards, unknown);
    Classification(visited, safe, dangerous, risky)
  }

  lemma ClassificationMeaning(g: Grid, safe: set<Pos>, dangerous: set<Pos>, risky: set<Pos>, hazards: set<Pos>, unknown: set<Pos>)
    requires Rectangular(g)
    requires forall p :: p in unknown <==> UnknownAt(g, p)
    requires forall p :: p in hazards <==> VisitedAt(g, p) && IsHazardLabel(At(g, p))
    requires safe == set p | p in unknown && VerdictAt(g, p) == SafeCell
    requires dangerous == hazards + set p | p in unknown && VerdictAt(g, p) == DangerousCell
    requires risky == (set p | p in unknown && VerdictAt(g, p) == RiskyCell) - safe - dangerous
    ensures forall p :: p in safe <==> UnknownAt(g, p) && HasCleanNeighbour(g, p)
    ensures forall p :: p in dangerous <==>
      (VisitedAt(g, p) && IsHazardLabel(At(g, p)))
      || (UnknownAt(g, p) && HasVisitedNeighbour(g, p) && !HasCleanNeighbour(g, p) && AllNeighboursSensed(g, p))
    ensures forall p :: p in risky <==>
      UnknownAt(g, p) && !HasCleanNeighbour(g, p) && HasSensedNeighbour(g, p) && !AllNeighboursSensed(g, p)
  {
    forall p | UnknownAt(g, p)
      ensures VerdictAt(g, p) == SafeCell <==> HasCleanNeighbour(g, p)
      ensures VerdictAt(g, p) == DangerousCell <==>
        HasVisitedNeighbour(g, p) && !HasCleanNeighbour(g, p) && AllNeighboursSensed(g, p)
      ensures VerdictAt(g, p) == RiskyCell <==>
        !HasCleanNeighbour(g, p) && HasSensedNeighbour(g, p) && !AllNeighboursSensed(g, p)
    {
      ScanMeaning(g, p);
      if HasCleanNeighbour(g, p) {
        var q :| Adjacent(p, q) && VisitedAt(g, q) && IsClean(At(g, q));
        assert HasVisitedNeighbour(g, p);
      }
      if HasSensedNeighbour(g, p) {
        var q :| Adjacent(p, q) && VisitedAt(g, q) && IsSensed(At(g, q));
        assert HasVisitedNeighbour(g, p);
      }
      if !HasVisitedNeighbour(g, p) {
        assert AllNeighboursSensed(g, p);
      }
    }
  }

  /** Safe cells are unknown, and the three classes of unknown cells never overlap. */
  lemma ClassesDisjoint(g: Grid)
    requires Rectangular(g)
    ensures forall p :: p in Classify(g).safe ==> UnknownAt(g, p)
    ensures Classify(g).safe !! Classify(g).dangerous
    ensures Classify(g).risky !! Classify(g).safe
    ensures Classify(g).risky !! Classify(g).dangerous
  {
  }

  /** An unknown cell next to a visited clean cell is safe, whatever its other neighbours say. */
  lemma CleanNeighbourMakesSafe(g: Grid, p: Pos, q: Pos)
    requires Rectangular(g)
    requires UnknownAt(g, p) && Adjacent(p, q) && VisitedAt(g, q) && IsClean(At(g, q))
    ensures p in Classify(g).safe
  {
  }

  /** An unknown cell without a visited neighbour stays unclassified. */
  lemma IsolatedCellUnclassified(g: Grid, p: Pos)
    requires Rectangular(g)
    requires UnknownAt(g, p)
    requires forall q :: Adjacent(p, q) ==> !VisitedAt(g, q)
    ensures p !in Classify(g).safe && p !in Classify(g).dangerous && p !in Classify(g).risky
  {
  }

  /** Removing safe and dangerous cells from the risky set changes nothing: every unknown cell
      judged risky is already outside the other two classes. */
  lemma RiskySubtractionIsDefensive(g: Grid, p: Pos)
    requires Rectangular(g)
    requires UnknownAt(g, p) && VerdictAt(g, p) == RiskyCell
    ensures p in Classify(g).risky
  {
    ScanMeaning(g, p);
  }
}
