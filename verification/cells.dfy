/** Ground-truth cell contents, percepts, and the labels of the visible grid. */
module Cells {
  import opened Geometry

  /** What a cell really holds ("empty", "pit", "wumpus", "gold"). */
  datatype Content = EmptyCell | PitCell | WumpusCell | GoldCell

  /** A sensory signal a cell gives off because of a hazard next to it or on it. */
  datatype Percept = Breeze | Stench

  /** A cell of the visible grid. The source uses strings; they form a closed set:
      "unknown", "empty", "pit", "wumpus", "gold", and the percept list of a visited
      empty cell joined by "+" (for instance "breeze", "stench+breeze"). */
  datatype Label = Unknown | Empty | Pit | Wumpus | Gold | Sensed(percepts: seq<Percept>)

  /** The substring test `"breeze" in label` (resp. "stench"). */
  predicate Mentions(l: Label, p: Percept)
  {
    l.Sensed? && p in l.percepts
  }

  /** The label contains "breeze" or "stench". */
  predicate IsSensed(l: Label)
  {
    Mentions(l, Breeze) || Mentions(l, Stench)
  }

  /** The label is "pit" or "wumpus". */
  predicate IsHazardLabel(l: Label)
  {
    l == Pit || l == Wumpus
  }

  /** A "white" cell: not pit, wumpus or gold, and no breeze or stench in its label. */
  predicate IsClean(l: Label)
  {
    l != Pit && l != Wumpus && l != Gold && !IsSensed(l)
  }

  /** The label shown for a visited cell whose content is not empty. */
  function ContentLabel(c: Content): Label
  {
    match c
    case EmptyCell => Empty
    case PitCell => Pit
    case WumpusCell => Wumpus
    case GoldCell => Gold
  }

  /** A visible grid: a list of rows of labels. */
  type Grid = seq<seq<Label>>

  function Rows(g: Grid): nat
  {
    |g|
  }

  /** The number of columns, read from the first row as the source does. */
  function Cols(g: Grid): nat
  {
    if |g| > 0 then |g[0]| else 0
  }

  /** Every row has as many cells as the first one. */
  predicate Rectangular(g: Grid)
  {
    forall r :: 0 <= r < |g| ==> |g[r]| == Cols(g)
  }

  predicate InGrid(g: Grid, p: Pos)
  {
    Within(Rows(g), Cols(g), p)
  }

  function At(g: Grid, p: Pos): Label
    requires Rectangular(g) && InGrid(g, p)
  {
    g[p.0][p.1]
  }

  /** The cell has been visited: it is in the grid and its label is not "unknown". */
  predicate VisitedAt(g: Grid, p: Pos)
    requires Rectangular(g)
  {
    InGrid(g, p) && At(g, p) != Unknown
  }

  predicate UnknownAt(g: Grid, p: Pos)
    requires Rectangular(g)
  {
    InGrid(g, p) && At(g, p) == Unknown
  }
}
