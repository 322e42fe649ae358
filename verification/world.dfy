/** The ground-truth world of backend/game/world.py: a square board of contents, the cells
    the agent has visited, the percepts cached for them, and the view the agent gets. */
module WorldModel {
  import opened Basics
  import opened Geometry
  import opened Cells

  /** The `World` object. The three position sets record where `reset` put each kind of entity. */
  datatype World = World(
    size: int,
    pitCount: nat,
    wumpusCount: nat,
    goldCount: nat,
    grid: seq<seq<Content>>,
    agentPos: Pos,
    visited: set<Pos>,
    percepts: map<Pos, seq<Percept>>,  // `visited_percepts`
    wumpuses: set<Pos>,
    golds: set<Pos>,
    pits: set<Pos>
  )

  /** `in_bounds`. */
  predicate InBounds(w: World, p: Pos)
  {
    Within(w.size, w.size, p)
  }

  /** The grid is `size` rows of `size` cells. */
  predicate Shaped(w: World)
  {
    |w.grid| == w.size && forall r :: 0 <= r < |w.grid| ==> |w.grid[r]| == w.size
  }

  function ContentAt(w: World, p: Pos): Content
    requires Shaped(w) && InBounds(w, p)
  {
    w.grid[p.0][p.1]
  }

  /** The cell is on the board and holds `c`. */
  predicate HasAt(w: World, q: Pos, c: Content)
    requires Shaped(w)
  {
    InBounds(w, q) && ContentAt(w, q) == c
  }

  /** The cells `get_percepts` inspects, in its order: the eight neighbours, then the cell itself. */
  function MooreScan(p: Pos): (s: seq<Pos>)
    ensures |s| == 9
  {
    [Offset(p, 0), Offset(p, 1), Offset(p, 2), Offset(p, 3),
     Offset(p, 4), Offset(p, 5), Offset(p, 6), Offset(p, 7), p]
  }

  /** The scan covers exactly the closed Moore neighbourhood. */
  lemma MooreScanIsNear(p: Pos)
    ensures forall q :: q in MooreScan(p) <==> Near(p, q)
  {
    var s := MooreScan(p);
    forall q | Near(p, q)
      ensures q in s
    {
      if q != p {
        AdjacentIsOffset(p, q);
        var k :| 0 <= k < 8 && q == Offset(p, k);
        assert s[k] == q;
      } else {
        assert s[8] == q;
      }
    }
  }

  /** One step of `get_percepts`: a pit adds "breeze" and a wumpus adds "stench", each once. */
  function Sense(w: World, acc: seq<Percept>, q: Pos): seq<Percept>
    requires Shaped(w)
  {
    if !InBounds(w, q) then acc
    else
      var withBreeze := if ContentAt(w, q) == PitCell && Breeze !in acc then acc + [Breeze] else acc;
      if ContentAt(w, q) == WumpusCell && Stench !in withBreeze then withBreeze + [Stench] else withBreeze
  }

  predicate Distinct(ps: seq<Percept>)
  {
    forall i, j :: 0 <= i < j < |ps| ==> ps[i] != ps[j]
  }

  /** The percept list after looking at the first `k` cells of `qs`. */
  function Collect(w: World, qs: seq<Pos>, k: nat): (ps: seq<Percept>)
    requires Shaped(w) && k <= |qs|
    ensures |ps| == (if Breeze in ps then 1 else 0) + (if Stench in ps then 1 else 0)
  {
    if k == 0 then [] else Sense(w, Collect(w, qs, k - 1), qs[k - 1])
  }

  /** No percept is collected twice. */
  lemma {:induction false} CollectDistinct(w: World, qs: seq<Pos>, k: nat)
    requires Shaped(w) && k <= |qs|
    ensures Distinct(Collect(w, qs, k))
  {
    if k > 0 {
      CollectDistinct(w, qs, k - 1);
    }
  }

  /** A percept is collected exactly when one of the cells looked at holds its hazard. */
  lemma {:induction false} CollectMeaning(w: World, qs: seq<Pos>, k: nat)
    requires Shaped(w) && k <= |qs|
    ensures Breeze in Collect(w, qs, k) <==> exists i :: 0 <= i < k && HasAt(w, qs[i], PitCell)
    ensures Stench in Collect(w, qs, k) <==> exists i :: 0 <= i < k && HasAt(w, qs[i], WumpusCell)
  {
    if k > 0 {
      CollectMeaning(w, qs, k - 1);
    }
  }

  /** `get_percepts`: look at the eight neighbours, then the cell itself. */
  function GetPercepts(w: World, p: Pos): (ps: seq<Percept>)
    requires Shaped(w) && InBounds(w, p)
    ensures |ps| <= 2
  {
    Collect(w, MooreScan(p), 9)
  }

  /** "breeze" is perceived exactly when a pit lies in the closed Moore neighbourhood, and
      "stench" exactly when a wumpus does; neither is reported twice. */
  lemma PerceptsMeaning(w: World, p: Pos)
    requires Shaped(w) && InBounds(w, p)
    ensures Distinct(GetPercepts(w, p))
    ensures Breeze in GetPercepts(w, p) <==> exists q :: Near(p, q) && HasAt(w, q, PitCell)
    ensures Stench in GetPercepts(w, p) <==> exists q :: Near(p, q) && HasAt(w, q, WumpusCell)
  {
    var qs := MooreScan(p);
    MooreScanIsNear(p);
    CollectDistinct(w, qs, 9);
    CollectMeaning(w, qs, 9);
    if exists q :: Near(p, q) && HasAt(w, q, PitCell) {
      var q :| Near(p, q) && HasAt(w, q, PitCell);
      var i :| 0 <= i < 9 && qs[i] == q;
    }
    if exists q :: Near(p, q) && HasAt(w, q, WumpusCell) {
      var q :| Near(p, q) && HasAt(w, q, WumpusCell);
      var i :| 0 <= i < 9 && qs[i] == q;
    }
  }

  /** The percepts cached for a cell, or none (`visited_percepts.get(pos, [])`). */
  function Cached(w: World, p: Pos): seq<Percept>
  {
    if p in w.percepts then w.percepts[p] else []
  }

  /** One cell of `get_visible_grid`. */
  function VisibleLabel(w: World, p: Pos): Label
    requires Shaped(w) && InBounds(w, p)
  {
    if p !in w.visited then Unknown
    else if ContentAt(w, p) != EmptyCell then ContentLabel(ContentAt(w, p))
    else if |Cached(w, p)| > 0 then Sensed(Cached(w, p))
    else Empty
  }

  /** `get_visible_grid`: unvisited cells are hidden; a visited cell shows its content, or, when
      empty, its cached percepts (or "empty" when there are none). */
  function VisibleGrid(w: World): (g: Grid)
    requires Shaped(w)
    ensures Rectangular(g) && Rows(g) == w.size && Cols(g) == w.size
    ensures forall p :: InGrid(g, p) <==> InBounds(w, p)
    ensures forall p :: InBounds(w, p) ==> (At(g, p) == Unknown <==> p !in w.visited)
    ensures forall p :: InBounds(w, p) && p in w.visited && ContentAt(w, p) != EmptyCell ==>
      At(g, p) == ContentLabel(ContentAt(w, p))
    ensures forall p :: InBounds(w, p) && p in w.visited && ContentAt(w, p) == EmptyCell ==>
      At(g, p) == (if |Cached(w, p)| > 0 then Sensed(Cached(w, p)) else Empty)
  {
    seq(w.size, r requires 0 <= r < w.size => seq(w.size, c requires 0 <= c < w.size => VisibleLabel(w, (r, c))))
  }

  /** Why `move_agent` refuses a move (the source raises ValueError). */
  datatype MoveError = OutOfBounds

  /** `move_agent`: reject an off-board target before touching anything; otherwise move there,
      mark it visited, cache its percepts and report its content and percepts. */
  function MoveAgent(w: World, p: Pos): (r: Result<(World, Content, seq<Percept>), MoveError>)
    requires Shaped(w)
    ensures r.Failure? <==> !InBounds(w, p)
    ensures r.Success? ==>
      var (w', cell, ps) := r.value;
      && w'.agentPos == p
      && w'.visited == w.visited + {p}
      && w'.percepts.Keys == w.percepts.Keys + {p}
      && Cached(w', p) == ps
      && (forall q :: q != p ==> Cached(w', q) == Cached(w, q))
      // every other field is kept; the next two lines are corollaries, named for callers
      && w'.(agentPos := w.agentPos, visited := w.visited, percepts := w.percepts) == w
      && w'.grid == w.grid && w'.size == w.size
      && w'.pits == w.pits && w'.wumpuses == w.wumpuses && w'.golds == w.golds
      && cell == ContentAt(w, p)
      && ps == GetPercepts(w, p)
  {
    if !InBounds(w, p) then Failure(OutOfBounds)
    else
      var ps := GetPercepts(w, p);
      Success((w.(agentPos := p, visited := w.visited + {p}, percepts := w.percepts[p := ps]), ContentAt(w, p), ps))
  }

  /** `is_safe`: false off the board, otherwise the cell holds neither pit nor wumpus. */
  function IsSafe(w: World, p: Pos): bool
    requires Shaped(w)
  {
    InBounds(w, p) && ContentAt(w, p) != PitCell && ContentAt(w, p) != WumpusCell
  }

  /** The content `reset` leaves at a cell, given where it put the entities. */
  function Layout(wumpuses: set<Pos>, golds: set<Pos>, pits: set<Pos>, p: Pos): Content
  {
    if p in pits then PitCell
    else if p in golds then GoldCell
    else if p in wumpuses then WumpusCell
    else EmptyCell
  }

  /** What `reset` establishes about the board and never changes afterwards: the grid is square
      and non-empty, the entity sets lie on the board, are pairwise disjoint, avoid the start
      cell, and the grid holds exactly them. */
  ghost predicate Board(w: World)
  {
    && Shaped(w) && w.size >= 1
    && (forall p :: p in w.pits + w.wumpuses + w.golds ==> InBounds(w, p))
    && w.pits !! w.wumpuses && w.pits !! w.golds && w.wumpuses !! w.golds
    && (0, 0) !in w.pits + w.wumpuses + w.golds
    && forall p :: InBounds(w, p) ==> ContentAt(w, p) == Layout(w.wumpuses, w.golds, w.pits, p)
  }

  /** What the game keeps about the agent's knowledge: the agent stands on a visited cell,
      visited cells are on the board, and each has its true percepts cached. */
  predicate Knowledge(w: World)
    requires Shaped(w)
  {
    && w.agentPos in w.visited
    && (forall p :: p in w.visited ==> InBounds(w, p))
    && w.percepts.Keys == w.visited
    && forall p :: p in w.visited ==> w.percepts[p] == GetPercepts(w, p)
  }

  ghost predicate WorldInv(w: World)
  {
    Board(w) && Knowledge(w)
  }

  /** The start cell is always empty. */
  lemma StartIsEmpty(w: World)
    requires Board(w)
    ensures ContentAt(w, (0, 0)) == EmptyCell
  {
  }

  /** On a well-formed board, `is_safe` agrees with the entity sets: a cell is safe exactly
      when it is on the board and `reset` put neither a pit nor a wumpus there. */
  lemma IsSafeMeansNoHazard(w: World, p: Pos)
    requires Board(w)
    ensures IsSafe(w, p) <==> InBounds(w, p) && p !in w.pits && p !in w.wumpuses
  {
  }

  /** The board part of the invariant depends only on the size, the grid and the entity sets. */
  lemma BoardFrame(w: World, w': World)
    requires Board(w)
    requires w'.size == w.size && w'.grid == w.grid
    requires w'.pits == w.pits && w'.wumpuses == w.wumpuses && w'.golds == w.golds
    ensures Board(w')
  {
    assert Shaped(w');
    forall q | InBounds(w', q)
      ensures ContentAt(w', q) == Layout(w'.wumpuses, w'.golds, w'.pits, q)
    {
      assert ContentAt(w', q) == ContentAt(w, q);
    }
  }

  /** A successful `move_agent` keeps the world invariant. */
  lemma MoveAgentKeepsInv(w: World, p: Pos)
    requires WorldInv(w)
    ensures MoveAgent(w, p).Success? ==> WorldInv(MoveAgent(w, p).value.0)
  {
    if InBounds(w, p) {
      var w' := w.(agentPos := p, visited := w.visited + {p}, percepts := w.percepts[p := GetPercepts(w, p)]);
      assert MoveAgent(w, p).value.0 == w';
      BoardFrame(w, w');
      forall q | q in w'.visited
        ensures w'.percepts[q] == GetPercepts(w', q)
      {
        GetPerceptsFrame(w, w', q);
      }
      assert Knowledge(w');
    }
  }

  /** Percepts depend on the grid alone. */
  lemma GetPerceptsFrame(w: World, w': World, p: Pos)
    requires Shaped(w) && w'.size == w.size && w'.grid == w.grid && InBounds(w, p)
    ensures GetPercepts(w', p) == GetPercepts(w, p)
  {
    assert Shaped(w');
    var qs := MooreScan(p);
    CollectFrame(w, w', qs, 9);
  }

  lemma {:induction false} CollectFrame(w: World, w': World, qs: seq<Pos>, k: nat)
    requires Shaped(w) && w'.size == w.size && w'.grid == w.grid && k <= |qs|
    ensures Shaped(w') && Collect(w', qs, k) == Collect(w, qs, k)
  {
    assert Shaped(w');
    if k > 0 {
      CollectFrame(w, w', qs, k - 1);
    }
  }

  /** The view never reveals the ground truth of an unvisited cell: two worlds that agree on
      the size, the visited cells, their contents and the cached percepts show the same grid. */
  lemma VisibleGridHidesUnvisited(w1: World, w2: World)
    requires Shaped(w1) && Shaped(w2) && w1.size == w2.size
    requires w1.visited == w2.visited && w1.percepts == w2.percepts
    requires forall p :: p in w1.visited && InBounds(w1, p) ==> ContentAt(w1, p) == ContentAt(w2, p)
    ensures VisibleGrid(w1) == VisibleGrid(w2)
  {
    var g1, g2 := VisibleGrid(w1), VisibleGrid(w2);
    forall r | 0 <= r < w1.size
      ensures g1[r] == g2[r]
    {
      forall c | 0 <= c < w1.size
        ensures g1[r][c] == g2[r][c]
      {
        assert At(g1, (r, c)) == VisibleLabel(w1, (r, c));
        assert At(g2, (r, c)) == VisibleLabel(w2, (r, c));
      }
    }
  }

  /** The distinct drawn cells a placement may still use: not the start cell and not in `taken`. */
  function Eligible(draws: seq<Pos>, taken: set<Pos>): set<Pos>
  {
    set q | q in draws && q != (0, 0) && q !in taken
  }

  /** The rejection sampling loop of `reset`: draw positions until `count` new ones are placed,
      skipping the start cell, cells in `taken`, and cells already placed. Running out of draws
      gives `None` (the source would keep drawing). Also returns the draws left over. The loop
      succeeds exactly when the draws hold enough distinct eligible cells, and a cell it skipped
      or placed is never eligible again. */
  function Place(draws: seq<Pos>, count: nat, taken: set<Pos>, placed: set<Pos>): (r: Option<(set<Pos>, seq<Pos>)>)
    requires |placed| <= count
    ensures r.Some? <==> |placed| + |Eligible(draws, taken + placed)| >= count
    ensures r.Some? ==> placed <= r.value.0 && |r.value.0| == count
    ensures r.Some? ==> forall q :: q in r.value.0 - placed ==> q != (0, 0) && q !in taken && q in draws
    ensures r.Some? ==> forall q :: q in r.value.1 ==> q in draws
    ensures r.Some? ==> Eligible(r.value.1, taken + r.value.0) == Eligible(draws, taken + placed) - r.value.0
    decreases |draws|
  {
    if !(|placed| < count) then Some((placed, draws))
    else if |draws| == 0 then
      assert Eligible(draws, taken + placed) == {};
      None
    else
      var q := draws[0];
      assert forall x :: x in draws[1..] ==> x in draws;
      if q != (0, 0) && q !in taken && q !in placed then
        var r := Place(draws[1..], count, taken, placed + {q});
        EligibleAfterPlace(draws, taken, placed);
        assert r.Some? ==> forall x :: x in r.value.0 - placed ==> x == q || x in r.value.0 - (placed + {q});
        r
      else
        EligibleAfterSkip(draws, taken, placed);
        Place(draws[1..], count, taken, placed)
  }

  /** Placing the first draw removes exactly that cell from the eligible ones. */
  lemma EligibleAfterPlace(draws: seq<Pos>, taken: set<Pos>, placed: set<Pos>)
    requires |draws| > 0 && draws[0] in Eligible(draws, taken + placed)
    ensures Eligible(draws[1..], taken + (placed + {draws[0]})) == Eligible(draws, taken + placed) - {draws[0]}
    ensures |Eligible(draws[1..], taken + (placed + {draws[0]}))| == |Eligible(draws, taken + placed)| - 1
    ensures |placed + {draws[0]}| == |placed| + 1
  {
    var e := Eligible(draws, taken + placed);
    assert forall x :: x in draws ==> x == draws[0] || x in draws[1..];
    assert Eligible(draws[1..], taken + (placed + {draws[0]})) == e - {draws[0]};
  }

  /** Skipping an ineligible first draw leaves the eligible cells as they were. */
  lemma EligibleAfterSkip(draws: seq<Pos>, taken: set<Pos>, placed: set<Pos>)
    requires |draws| > 0 && draws[0] !in Eligible(draws, taken + placed)
    ensures Eligible(draws[1..], taken + placed) == Eligible(draws, taken + placed)
  {
    assert forall x :: x in draws ==> x == draws[0] || x in draws[1..];
  }

  /** The grid holding exactly the given entities. */
  function LayoutGrid(size: nat, wumpuses: set<Pos>, golds: set<Pos>, pits: set<Pos>): (grid: seq<seq<Content>>)
    ensures |grid| == size && forall r :: 0 <= r < size ==> |grid[r]| == size
    ensures forall r, c :: 0 <= r < size && 0 <= c < size ==> grid[r][c] == Layout(wumpuses, golds, pits, (r, c))
  {
    seq(size, r requires 0 <= r < size => seq(size, c requires 0 <= c < size => Layout(wumpuses, golds, pits, (r, c))))
  }

  /** The world `reset` builds once the entity sets are chosen. */
  function Populate(size: int, pitCount: nat, wumpusCount: nat, goldCount: nat,
                    wumpuses: set<Pos>, golds: set<Pos>, pits: set<Pos>): (w: World)
    requires size >= 1
    requires forall p :: p in pits + wumpuses + golds ==> Within(size, size, p)
    requires pits !! wumpuses && pits !! golds && wumpuses !! golds
    requires (0, 0) !in pits + wumpuses + golds
    ensures WorldInv(w)
    ensures w.size == size && w.pitCount == pitCount && w.wumpusCount == wumpusCount && w.goldCount == goldCount
    ensures w.wumpuses == wumpuses && w.golds == golds && w.pits == pits
    ensures w.agentPos == (0, 0) && w.visited == {(0, 0)}
  {
    var w0 := World(size, pitCount, wumpusCount, goldCount, LayoutGrid(size, wumpuses, golds, pits),
                    (0, 0), {(0, 0)}, map[], wumpuses, golds, pits);
    assert Board(w0) by {
      forall q | InBounds(w0, q)
        ensures ContentAt(w0, q) == Layout(wumpuses, golds, pits, q)
      {
        assert ContentAt(w0, q) == w0.grid[q.0][q.1];
      }
    }
    var w := w0.(percepts := map[(0, 0) := GetPercepts(w0, (0, 0))]);
    BoardFrame(w0, w);
    GetPerceptsFrame(w0, w, (0, 0));
    StartKnowledge(w);
    w
  }

  /** A world whose agent stands on the only visited cell, the start, with its percepts cached. */
  lemma StartKnowledge(w: World)
    requires Shaped(w) && w.size >= 1
    requires w.agentPos == (0, 0) && w.visited == {(0, 0)}
    requires w.percepts == map[(0, 0) := GetPercepts(w, (0, 0))]
    ensures Knowledge(w)
  {
  }

  /** Placing from on-board draws puts `count` fresh on-board cells and leaves on-board draws. */
  lemma PlaceOnBoard(size: int, draws: seq<Pos>, count: nat, taken: set<Pos>)
    requires forall q :: q in draws ==> Within(size, size, q)
    ensures var r := Place(draws, count, taken, {});
      r.Some? ==>
        && |r.value.0| == count
        && (forall q :: q in r.value.0 ==> Within(size, size, q) && q != (0, 0) && q !in taken)
        && (forall q :: q in r.value.1 ==> Within(size, size, q))
  {
    var r := Place(draws, count, taken, {});
    if r.Some? {
      forall q | q in r.value.0
        ensures Within(size, size, q) && q != (0, 0) && q !in taken
      {
        assert q in r.value.0 - {};
      }
    }
  }

  /** A placement from scratch takes its cells from the eligible ones and leaves the rest of
      them, and nothing else, eligible in the remaining draws. */
  lemma PlaceConsumes(draws: seq<Pos>, count: nat, taken: set<Pos>)
    ensures Place(draws, count, taken, {}).Some? <==> |Eligible(draws, taken)| >= count
    ensures Place(draws, count, taken, {}).Some? ==>
      var (s, rest) := Place(draws, count, taken, {}).value;
      s <= Eligible(draws, taken) && |Eligible(rest, taken + s)| == |Eligible(draws, taken)| - count
  {
    assert taken + {} == taken;
    var r := Place(draws, count, taken, {});
    if r.Some? {
      var (s, rest) := r.value;
      assert s - {} == s;
      assert s <= Eligible(draws, taken);
      CardMinus(Eligible(draws, taken), s);
    }
  }

  lemma CardMinus(a: set<Pos>, s: set<Pos>)
    requires s <= a
    ensures |a - s| == |a| - |s|
  {
    assert a == (a - s) + s;
    assert (a - s) * s == {};
  }

  /** The three placements of `reset` in order: the wumpuses, then the golds, then the pits,
      consuming `draws`. The sets are disjoint, on the board and avoid the start cell. They are
      all placed exactly when the draws hold enough distinct cells other than the start. */
  function PlaceAll(size: int, pitCount: nat, wumpusCount: nat, goldCount: nat, draws: seq<Pos>)
    : (r: Option<(set<Pos>, set<Pos>, set<Pos>)>)
    requires forall i :: 0 <= i < |draws| ==> Within(size, size, draws[i])
    ensures r.Some? <==> |Eligible(draws, {})| >= wumpusCount + goldCount + pitCount
    ensures r.Some? ==>
      var (wumpuses, golds, pits) := r.value;
      && |wumpuses| == wumpusCount && |golds| == goldCount && |pits| == pitCount
      && (forall p :: p in pits + wumpuses + golds ==> Within(size, size, p))
      && pits !! wumpuses && pits !! golds && wumpuses !! golds
      && (0, 0) !in pits + wumpuses + golds
  {
    PlaceOnBoard(size, draws, wumpusCount, {});
    PlaceConsumes(draws, wumpusCount, {});
    match Place(draws, wumpusCount, {}, {})
    case None => None
    case Some((wumpuses, rest)) =>
      assert {} + wumpuses == wumpuses;
      match PlaceGoldsAndPits(size, pitCount, goldCount, wumpuses, rest)
      case None => None
      case Some((golds, pits)) => Some((wumpuses, golds, pits))
  }

  /** The second and third placements of `reset`: the golds avoid the wumpuses, the pits avoid
      both. */
  function PlaceGoldsAndPits(size: int, pitCount: nat, goldCount: nat, wumpuses: set<Pos>, draws: seq<Pos>)
    : (r: Option<(set<Pos>, set<Pos>)>)
    requires forall q :: q in draws ==> Within(size, size, q)
    ensures r.Some? <==> |Eligible(draws, wumpuses)| >= goldCount + pitCount
    ensures r.Some? ==>
      var (golds, pits) := r.value;
      && |golds| == goldCount && |pits| == pitCount
      && (forall p :: p in pits + golds ==> Within(size, size, p) && p != (0, 0) && p !in wumpuses)
      && pits !! golds
  {
    PlaceOnBoard(size, draws, goldCount, wumpuses);
    PlaceConsumes(draws, goldCount, wumpuses);
    match Place(draws, goldCount, wumpuses, {})
    case None => None
    case Some((golds, rest)) =>
      PlaceOnBoard(size, rest, pitCount, wumpuses + golds);
      PlaceConsumes(rest, pitCount, wumpuses + golds);
      match Place(rest, pitCount, wumpuses + golds, {})
      case None => None
      case Some((pits, _)) => Some((golds, pits))
  }

  /** `reset`: place the entities from the draws (each one a (row, column) pair from `randint`);
      the agent starts at (0, 0), which alone is visited. Each placement lands on a free cell,
      so the grid ends up holding exactly the three sets. */
  function Reset(size: int, pitCount: nat, wumpusCount: nat, goldCount: nat, draws: seq<Pos>): (r: Option<World>)
    requires size >= 1
    requires forall i :: 0 <= i < |draws| ==> Within(size, size, draws[i])
    ensures r.Some? <==> |Eligible(draws, {})| >= wumpusCount + goldCount + pitCount
    ensures r.Some? ==> var w := r.value;
      && WorldInv(w)
      && w.size == size && w.pitCount == pitCount && w.wumpusCount == wumpusCount && w.goldCount == goldCount
      && |w.wumpuses| == wumpusCount && |w.golds| == goldCount && |w.pits| == pitCount
      && w.pits !! w.wumpuses && w.pits !! w.golds && w.wumpuses !! w.golds
      && (0, 0) !in w.pits + w.wumpuses + w.golds
      && ContentAt(w, (0, 0)) == EmptyCell
      && w.agentPos == (0, 0) && w.visited == {(0, 0)}
  {
    match PlaceAll(size, pitCount, wumpusCount, goldCount, draws)
    case None => None
    case Some((wumpuses, golds, pits)) =>
      var w := Populate(size, pitCount, wumpusCount, goldCount, wumpuses, golds, pits);
      StartIsEmpty(w);
      Some(w)
  }
}
