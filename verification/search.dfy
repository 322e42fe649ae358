/** The breadth-first search both move rules use (backend/game/logic.py:86-128 and
    backend/app.py:117-178): from the agent's cell, over 8-neighbours inside the grid,
    never entering a dangerous cell, to the nearest unknown cell of a target set. */
module Search {
  import opened Basics
  import opened Geometry
  import opened Cells

  /** A queue entry: the cell reached and the path of cells that led there from the start
      (the start itself is not on the path). */
  datatype Entry = Entry(cell: Pos, path: seq<Pos>)

  /** A move the search may make: into an in-grid 8-neighbour that is not dangerous. */
  predicate Step(g: Grid, danger: set<Pos>, a: Pos, b: Pos)
  {
    InGrid(g, b) && b !in danger && Adjacent(a, b)
  }

  /** The cell a path ends in. */
  function Last(start: Pos, w: seq<Pos>): Pos
  {
    if |w| == 0 then start else w[|w| - 1]
  }

  /** The move the search answers with: the first cell of the path, or the start itself. */
  function FirstStep(start: Pos, w: seq<Pos>): Pos
  {
    if |w| == 0 then start else w[0]
  }

  /** The cell just before position `i` of a path. */
  function Before(start: Pos, w: seq<Pos>, i: nat): Pos
    requires i < |w|
  {
    if i == 0 then start else w[i - 1]
  }

  /** `w` is a walk of search moves from `start`. */
  ghost predicate IsWalk(g: Grid, danger: set<Pos>, start: Pos, w: seq<Pos>)
  {
    forall i :: 0 <= i < |w| ==> Step(g, danger, Before(start, w, i), w[i])
  }

  /** A cell the search stops at: in the target set and still unknown. */
  predicate IsTarget(g: Grid, targets: set<Pos>, p: Pos)
    requires Rectangular(g)
  {
    p in targets && InGrid(g, p) && At(g, p) == Unknown
  }

  // ----- lemmas about walks -----

  lemma WalkExtend(g: Grid, danger: set<Pos>, start: Pos, w: seq<Pos>, n: Pos)
    requires IsWalk(g, danger, start, w) && Step(g, danger, Last(start, w), n)
    ensures IsWalk(g, danger, start, w + [n]) && Last(start, w + [n]) == n
  {
    var w' := w + [n];
    forall i | 0 <= i < |w'|
      ensures Step(g, danger, Before(start, w', i), w'[i])
    {
      if i < |w| {
        assert Before(start, w', i) == Before(start, w, i);
      } else {
        assert Before(start, w', i) == Last(start, w);
      }
    }
  }

  /** Dropping the last cell of a walk leaves a walk, one step short of the end. */
  lemma WalkSplit(g: Grid, danger: set<Pos>, start: Pos, w: seq<Pos>)
    requires IsWalk(g, danger, start, w) && |w| > 0
    ensures IsWalk(g, danger, start, w[..|w| - 1])
    ensures Step(g, danger, Last(start, w[..|w| - 1]), Last(start, w))
  {
    var u := w[..|w| - 1];
    forall i | 0 <= i < |u|
      ensures Step(g, danger, Before(start, u, i), u[i])
    {
      assert Before(start, u, i) == Before(start, w, i);
    }
    assert Before(start, w, |w| - 1) == Last(start, u);
  }

  /** A set containing the start and closed under search moves contains the end of every walk. */
  lemma {:induction false} ClosedSetHoldsWalks(g: Grid, danger: set<Pos>, start: Pos, s: set<Pos>, w: seq<Pos>)
    requires start in s
    requires forall z, n :: z in s && Step(g, danger, z, n) ==> n in s
    requires IsWalk(g, danger, start, w)
    ensures Last(start, w) in s
    decreases |w|
  {
    if |w| > 0 {
      WalkSplit(g, danger, start, w);
      ClosedSetHoldsWalks(g, danger, start, s, w[..|w| - 1]);
    }
  }

  // ----- the order in which the search meets walks -----

  /** The number of the scan direction leading from `a` to `b`; 8 when `b` is not one of
      the eight cells around `a`. */
  function DirOf(a: Pos, b: Pos): nat
  {
    var d := (b.0 - a.0, b.1 - a.1);
    if d == Directions[0] then 0
    else if d == Directions[1] then 1
    else if d == Directions[2] then 2
    else if d == Directions[3] then 3
    else if d == Directions[4] then 4
    else if d == Directions[5] then 5
    else if d == Directions[6] then 6
    else if d == Directions[7] then 7
    else 8
  }

  lemma DirOfOffset(a: Pos, k: nat)
    requires k < 8
    ensures DirOf(a, Offset(a, k)) == k
  {
  }

  lemma OffsetOfDir(a: Pos, b: Pos)
    requires Adjacent(a, b)
    ensures DirOf(a, b) < 8 && Offset(a, DirOf(a, b)) == b
  {
  }

  /** The direction numbers a path takes from `start`, step by step. */
  function Dirs(start: Pos, w: seq<Pos>): (ks: seq<nat>)
    ensures |ks| == |w|
  {
    seq(|w|, i requires 0 <= i < |w| => DirOf(Before(start, w, i), w[i]))
  }

  /** Dictionary order: `a` is smaller than `b` at the first place where they differ. */
  ghost predicate LexBefore(a: seq<nat>, b: seq<nat>)
  {
    exists i :: 0 <= i < |a| && i < |b| && a[..i] == b[..i] && a[i] < b[i]
  }

  /** The search meets path `v` before path `w`: `v` is shorter, or as long and smaller in
      dictionary order of the directions taken. */
  ghost predicate Earlier(start: Pos, v: seq<Pos>, w: seq<Pos>)
  {
    |v| < |w| || (|v| == |w| && LexBefore(Dirs(start, v), Dirs(start, w)))
  }

  /** `v` is `w`, or the search meets it first. */
  ghost predicate NotAfter(start: Pos, v: seq<Pos>, w: seq<Pos>)
  {
    v == w || Earlier(start, v, w)
  }

  lemma LexTrans(a: seq<nat>, b: seq<nat>, c: seq<nat>)
    requires |a| == |b| == |c| && LexBefore(a, b) && LexBefore(b, c)
    ensures LexBefore(a, c)
  {
    var i :| 0 <= i < |a| && i < |b| && a[..i] == b[..i] && a[i] < b[i];
    var j :| 0 <= j < |b| && j < |c| && b[..j] == c[..j] && b[j] < c[j];
    if i < j {
      assert b[..i] == b[..j][..i] && c[..i] == c[..j][..i];
      assert b[i] == b[..j][i] && c[i] == c[..j][i];
    } else if j < i {
      assert a[..j] == a[..i][..j] && b[..j] == b[..i][..j];
      assert a[j] == a[..i][j] && b[j] == b[..i][j];
    }
  }

  lemma LexExtend(a: seq<nat>, b: seq<nat>, x: nat, y: nat)
    requires |a| == |b| && LexBefore(a, b)
    ensures LexBefore(a + [x], b + [y])
  {
    var i :| 0 <= i < |a| && i < |b| && a[..i] == b[..i] && a[i] < b[i];
    assert (a + [x])[..i] == a[..i] && (b + [y])[..i] == b[..i];
    assert (a + [x])[i] == a[i] && (b + [y])[i] == b[i];
  }

  lemma LexLast(a: seq<nat>, x: nat, y: nat)
    requires x < y
    ensures LexBefore(a + [x], a + [y])
  {
    assert (a + [x])[..|a|] == a == (a + [y])[..|a|];
  }

  lemma {:induction false} LexTotal(a: seq<nat>, b: seq<nat>)
    requires |a| == |b|
    ensures a == b || LexBefore(a, b) || LexBefore(b, a)
    decreases |a|
  {
    if |a| > 0 {
      var n := |a| - 1;
      var a', b' := a[..n], b[..n];
      assert a == a' + [a[n]] && b == b' + [b[n]];
      LexTotal(a', b');
      if a' == b' {
        if a[n] < b[n] {
          LexLast(a', a[n], b[n]);
        } else if b[n] < a[n] {
          LexLast(a', b[n], a[n]);
        }
      } else if LexBefore(a', b') {
        LexExtend(a', b', a[n], b[n]);
      } else {
        LexExtend(b', a', b[n], a[n]);
      }
    }
  }

  /** Extending a path by one cell extends its directions by the direction of that step. */
  lemma DirsExtend(start: Pos, w: seq<Pos>, n: Pos)
    ensures Dirs(start, w + [n]) == Dirs(start, w) + [DirOf(Last(start, w), n)]
  {
    var w' := w + [n];
    forall i | 0 <= i < |w'|
      ensures Dirs(start, w')[i] == (Dirs(start, w) + [DirOf(Last(start, w), n)])[i]
    {
      if i < |w| {
        assert Before(start, w', i) == Before(start, w, i);
      } else {
        assert Before(start, w', i) == Last(start, w);
      }
    }
  }

  /** A walk is determined by its start and its directions. */
  lemma {:induction false} DirsDetermineWalk(g: Grid, danger: set<Pos>, start: Pos, v: seq<Pos>, w: seq<Pos>)
    requires IsWalk(g, danger, start, v) && IsWalk(g, danger, start, w)
    requires Dirs(start, v) == Dirs(start, w)
    ensures v == w
    decreases |v|
  {
    if |v| > 0 {
      var n := |v| - 1;
      var v', w' := v[..n], w[..n];
      assert v == v' + [v[n]] && w == w' + [w[n]];
      WalkSplit(g, danger, start, v);
      WalkSplit(g, danger, start, w);
      DirsExtend(start, v', v[n]);
      DirsExtend(start, w', w[n]);
      assert Dirs(start, v') == Dirs(start, v)[..n] == Dirs(start, w)[..n] == Dirs(start, w');
      DirsDetermineWalk(g, danger, start, v', w');
      OffsetOfDir(Last(start, v'), v[n]);
      OffsetOfDir(Last(start, w'), w[n]);
      assert Dirs(start, v)[n] == Dirs(start, w)[n];
    }
  }

  lemma EarlierIrreflexive(start: Pos, v: seq<Pos>)
    ensures !Earlier(start, v, v)
  {
  }

  lemma EarlierTrans(start: Pos, u: seq<Pos>, v: seq<Pos>, w: seq<Pos>)
    requires NotAfter(start, u, v) && NotAfter(start, v, w)
    ensures NotAfter(start, u, w)
    ensures Earlier(start, u, v) || Earlier(start, v, w) ==> Earlier(start, u, w)
  {
    if Earlier(start, u, v) && Earlier(start, v, w) && |u| == |v| == |w| {
      LexTrans(Dirs(start, u), Dirs(start, v), Dirs(start, w));
    }
  }

  /** The search order is total on walks. */
  lemma WalkOrderTotal(g: Grid, danger: set<Pos>, start: Pos, v: seq<Pos>, w: seq<Pos>)
    requires IsWalk(g, danger, start, v) && IsWalk(g, danger, start, w)
    ensures Earlier(start, v, w) || v == w || Earlier(start, w, v)
  {
    if |v| == |w| {
      LexTotal(Dirs(start, v), Dirs(start, w));
      if Dirs(start, v) == Dirs(start, w) {
        DirsDetermineWalk(g, danger, start, v, w);
      }
    }
  }

  /** Extending two paths by one cell each keeps the earlier one earlier. */
  lemma ExtendKeepsEarlier(start: Pos, v: seq<Pos>, w: seq<Pos>, a: Pos, b: Pos)
    requires Earlier(start, v, w)
    ensures Earlier(start, v + [a], w + [b])
  {
    DirsExtend(start, v, a);
    DirsExtend(start, w, b);
    if |v| == |w| {
      LexExtend(Dirs(start, v), Dirs(start, w), DirOf(Last(start, v), a), DirOf(Last(start, w), b));
    }
  }

  /** Two one-step extensions of the same path are met in scan order of their last step. */
  lemma SiblingOrder(start: Pos, p: seq<Pos>, a: Pos, b: Pos)
    requires DirOf(Last(start, p), a) < DirOf(Last(start, p), b)
    ensures Earlier(start, p + [a], p + [b])
  {
    DirsExtend(start, p, a);
    DirsExtend(start, p, b);
    LexLast(Dirs(start, p), DirOf(Last(start, p), a), DirOf(Last(start, p), b));
  }

  // ----- the queue invariants -----

  /** The entry's path is a walk from the start that ends in the entry's cell. */
  ghost predicate Leads(g: Grid, danger: set<Pos>, start: Pos, e: Entry)
  {
    IsWalk(g, danger, start, e.path) && Last(start, e.path) == e.cell
  }

  /** Some queued entry for `n` has a path no longer than `d`. */
  ghost predicate Pending(q: seq<Entry>, n: Pos, d: int)
  {
    exists i :: 0 <= i < |q| && q[i].cell == n && |q[i].path| <= d
  }

  /** Path lengths along the queue never decrease. */
  ghost predicate Sorted(q: seq<Entry>)
  {
    forall i, j :: 0 <= i <= j < |q| ==> |q[i].path| <= |q[j].path|
  }

  /** No queued path is more than one longer than the front one. */
  ghost predicate Spread(q: seq<Entry>)
  {
    forall i :: 0 <= i < |q| ==> |q[i].path| <= |q[0].path| + 1
  }

  /** Every move out of an explored cell leads to an explored cell or to a queued entry
      at most one longer than the path the cell was explored with. */
  ghost predicate Closed(g: Grid, danger: set<Pos>, explored: set<Pos>, depth: map<Pos, nat>, q: seq<Entry>)
  {
    forall z, n :: z in explored && z in depth && Step(g, danger, z, n) ==>
      n in explored || Pending(q, n, depth[z] + 1)
  }

  /** Each explored cell was explored with a path no longer than any walk to it. */
  ghost predicate DepthMinimal(g: Grid, danger: set<Pos>, start: Pos, depth: map<Pos, nat>)
  {
    forall v :: IsWalk(g, danger, start, v) && Last(start, v) in depth ==> depth[Last(start, v)] <= |v|
  }

  /** Every walk shorter than `bound` ends in an explored cell. */
  ghost predicate ShorterExplored(g: Grid, danger: set<Pos>, start: Pos, explored: set<Pos>, bound: int)
  {
    forall v :: IsWalk(g, danger, start, v) && |v| < bound ==> Last(start, v) in explored
  }

  lemma PendingAppend(q: seq<Entry>, extra: seq<Entry>, n: Pos, d: int)
    requires Pending(q, n, d)
    ensures Pending(q + extra, n, d)
  {
    var i :| 0 <= i < |q| && q[i].cell == n && |q[i].path| <= d;
    assert (q + extra)[i] == q[i];
  }

  /** Popping an entry of an already explored cell keeps the queue closed. */
  lemma ClosedAfterSkip(g: Grid, danger: set<Pos>, explored: set<Pos>, depth: map<Pos, nat>, q: seq<Entry>)
    requires |q| > 0 && q[0].cell in explored
    requires Closed(g, danger, explored, depth, q)
    ensures Closed(g, danger, explored, depth, q[1..])
  {
    forall z, n | z in explored && z in depth && Step(g, danger, z, n) && n !in explored
      ensures Pending(q[1..], n, depth[z] + 1)
    {
      var i :| 0 <= i < |q| && q[i].cell == n && |q[i].path| <= depth[z] + 1;
      assert i > 0;
      assert q[1..][i - 1] == q[i];
    }
  }

  /** Exploring the front cell and queueing its unexplored neighbours keeps the queue closed. */
  lemma ClosedAfterVisit(g: Grid, danger: set<Pos>, explored: set<Pos>, depth: map<Pos, nat>,
                         before: seq<Entry>, after: seq<Entry>, d: nat)
    requires |before| > 0 && before[0].cell !in explored
    requires depth.Keys == explored
    requires Closed(g, danger, explored, depth, before)
    requires |after| >= |before| - 1 && after[..|before| - 1] == before[1..]
    requires forall k :: 0 <= k < 8 && Step(g, danger, before[0].cell, Offset(before[0].cell, k)) ==>
      Offset(before[0].cell, k) in explored + {before[0].cell} || Pending(after, Offset(before[0].cell, k), d + 1)
    ensures Closed(g, danger, explored + {before[0].cell}, depth[before[0].cell := d], after)
  {
    var x := before[0].cell;
    var explored' := explored + {x};
    var depth' := depth[x := d];
    forall z, n | z in explored' && z in depth' && Step(g, danger, z, n) && n !in explored'
      ensures Pending(after, n, depth'[z] + 1)
    {
      if z == x {
        AdjacentIsOffset(z, n);
        var k :| 0 <= k < 8 && n == Offset(z, k);
      } else {
        var i :| 0 <= i < |before| && before[i].cell == n && |before[i].path| <= depth[z] + 1;
        assert i > 0;
        assert after[i - 1] == before[1..][i - 1] == before[i];
      }
    }
  }

  /** Exploring `x` with a path of length `d`, while every shorter walk ends in an already
      explored cell, keeps the recorded depths minimal. */
  lemma DepthAfterVisit(g: Grid, danger: set<Pos>, start: Pos, explored: set<Pos>, depth: map<Pos, nat>, x: Pos, d: nat)
    requires depth.Keys == explored && x !in explored
    requires DepthMinimal(g, danger, start, depth)
    requires ShorterExplored(g, danger, start, explored, d)
    ensures DepthMinimal(g, danger, start, depth[x := d])
  {
  }

  /** After the front entry (path length `d`) is handled, every walk shorter than the new
      front's path ends in an explored cell. */
  lemma FrontAdvance(g: Grid, danger: set<Pos>, start: Pos, explored: set<Pos>, depth: map<Pos, nat>,
                     q: seq<Entry>, popped: Entry, d: nat)
    requires Leads(g, danger, start, popped) && |popped.path| == d && popped.cell in explored
    requires depth.Keys == explored
    requires ShorterExplored(g, danger, start, explored, d)
    requires DepthMinimal(g, danger, start, depth)
    requires Closed(g, danger, explored, depth, q)
    requires |q| > 0 && d <= |q[0].path| <= d + 1
    requires forall i :: 0 <= i < |q| ==> |q[0].path| <= |q[i].path|
    ensures ShorterExplored(g, danger, start, explored, |q[0].path|)
  {
    forall v | IsWalk(g, danger, start, v) && |v| < |q[0].path|
      ensures Last(start, v) in explored
    {
      if |v| == d {
        if d == 0 {
          assert Last(start, v) == start == Last(start, popped.path);
        } else {
          WalkSplit(g, danger, start, v);
          var z := Last(start, v[..|v| - 1]);
          assert z in explored;
        }
      }
    }
  }

  lemma UnexploredShrinks(universe: set<Pos>, explored: set<Pos>, x: Pos)
    requires x in universe && x !in explored
    ensures |universe - (explored + {x})| < |universe - explored|
  {
    var a := universe - explored;
    assert universe - (explored + {x}) == a - {x};
    assert a == (a - {x}) + {x};
  }

  /** The entries the search queues for the first `k` directions out of `e`: each in-grid,
      non-dangerous, unexplored neighbour of the entry's cell, with the entry's path extended
      by it, in scan order. */
  function Children(g: Grid, danger: set<Pos>, explored: set<Pos>, e: Entry, k: nat): seq<Entry>
    requires k <= 8
  {
    if k == 0 then []
    else
      var n := Offset(e.cell, k - 1);
      Children(g, danger, explored, e, k - 1)
        + (if InGrid(g, n) && n !in danger && n !in explored then [Entry(n, e.path + [n])] else [])
  }

  /** Queues the unexplored, non-dangerous in-grid neighbours of the entry's cell in scan
      order, each with the entry's path extended by that neighbour. */
  method Expand(g: Grid, danger: set<Pos>, start: Pos, explored: set<Pos>, queue: seq<Entry>, e: Entry)
    returns (q: seq<Entry>)
    requires Rectangular(g)
    requires Leads(g, danger, start, e)
    ensures q == queue + Children(g, danger, explored, e, 8)
    ensures |q| >= |queue| && q[..|queue|] == queue
    ensures forall i :: |queue| <= i < |q| ==>
      Leads(g, danger, start, q[i]) && |q[i].path| == |e.path| + 1 && InGrid(g, q[i].cell) && q[i].cell !in explored
    ensures forall k :: 0 <= k < 8 && Step(g, danger, e.cell, Offset(e.cell, k)) ==>
      Offset(e.cell, k) in explored || Pending(q, Offset(e.cell, k), |e.path| + 1)
  {
    q := queue;
    var k := 0;
    while k < 8
      invariant 0 <= k <= 8
      invariant q == queue + Children(g, danger, explored, e, k)
    {
      var n := Offset(e.cell, k);
      if InGrid(g, n) && n !in danger && n !in explored {
        q := q + [Entry(n, e.path + [n])];
      }
      k := k + 1;
    }
    ChildrenQueued(g, danger, start, explored, queue, e);
  }

  /** The queue after `Expand`: the old entries first, then walks one step longer than the
      entry's, into the grid and unexplored cells; every open neighbour is explored or queued. */
  lemma ChildrenQueued(g: Grid, danger: set<Pos>, start: Pos, explored: set<Pos>, queue: seq<Entry>, e: Entry)
    requires Rectangular(g)
    requires Leads(g, danger, start, e)
    ensures var q := queue + Children(g, danger, explored, e, 8);
      && |q| >= |queue| && q[..|queue|] == queue
      && (forall i :: |queue| <= i < |q| ==>
            Leads(g, danger, start, q[i]) && |q[i].path| == |e.path| + 1 && InGrid(g, q[i].cell) && q[i].cell !in explored)
      && (forall k :: 0 <= k < 8 && Step(g, danger, e.cell, Offset(e.cell, k)) ==>
            Offset(e.cell, k) in explored || Pending(q, Offset(e.cell, k), |e.path| + 1))
  {
    var c := Children(g, danger, explored, e, 8);
    var q := queue + c;
    ChildrenFacts(g, danger, explored, e, 8);
    assert q[..|queue|] == queue;
    forall i | |queue| <= i < |q|
      ensures Leads(g, danger, start, q[i]) && |q[i].path| == |e.path| + 1
    {
      var x := c[i - |queue|];
      assert q[i] == x;
      OffsetIsAdjacent(e.cell, DirOf(e.cell, x.cell));
      WalkExtend(g, danger, start, e.path, x.cell);
    }
    forall k | 0 <= k < 8 && Step(g, danger, e.cell, Offset(e.cell, k)) && Offset(e.cell, k) !in explored
      ensures Pending(q, Offset(e.cell, k), |e.path| + 1)
    {
      var i :| 0 <= i < |c| && c[i] == Entry(Offset(e.cell, k), e.path + [Offset(e.cell, k)]);
      assert q[|queue| + i] == c[i];
    }
  }

  /** Everything the search loop keeps true of its queue, explored set and (ghost) depths. */
  ghost predicate Inv(g: Grid, danger: set<Pos>, start: Pos, targets: set<Pos>, universe: set<Pos>,
                      queue: seq<Entry>, explored: set<Pos>, depth: map<Pos, nat>)
    requires Rectangular(g)
  {
    && (forall i :: 0 <= i < |queue| ==> Leads(g, danger, start, queue[i]))
    && (forall i :: 0 <= i < |queue| ==> queue[i].cell in universe)
    && explored <= universe
    && Sorted(queue) && Spread(queue)
    && depth.Keys == explored
    && (forall x :: x in explored ==> !IsTarget(g, targets, x))
    && Closed(g, danger, explored, depth, queue)
    && DepthMinimal(g, danger, start, depth)
    && (|queue| > 0 ==> ShorterExplored(g, danger, start, explored, |queue[0].path|))
    && (|queue| == 0 ==> start in explored)
  }

  /** Popping an entry whose cell is already explored keeps the invariant. */
  lemma InvAfterSkip(g: Grid, danger: set<Pos>, start: Pos, targets: set<Pos>, universe: set<Pos>,
                     queue: seq<Entry>, explored: set<Pos>, depth: map<Pos, nat>)
    requires Rectangular(g)
    requires Inv(g, danger, start, targets, universe, queue, explored, depth)
    requires |queue| > 0 && queue[0].cell in explored
    ensures Inv(g, danger, start, targets, universe, queue[1..], explored, depth)
  {
    var e := queue[0];
    var rest := queue[1..];
    ClosedAfterSkip(g, danger, explored, depth, queue);
    if |rest| > 0 {
      assert rest[0] == queue[1];
      FrontAdvance(g, danger, start, explored, depth, rest, e, |e.path|);
    } else if |e.path| > 0 {
      assert IsWalk(g, danger, start, []);
    }
  }

  /** Exploring the front cell (not a target) and queueing its neighbours keeps the invariant. */
  lemma InvAfterVisit(g: Grid, danger: set<Pos>, start: Pos, targets: set<Pos>, universe: set<Pos>,
                      before: seq<Entry>, after: seq<Entry>, explored: set<Pos>, depth: map<Pos, nat>)
    requires Rectangular(g)
    requires universe == AllCells(Rows(g), Cols(g)) + {start}
    requires Inv(g, danger, start, targets, universe, before, explored, depth)
    requires |before| > 0 && before[0].cell !in explored && !IsTarget(g, targets, before[0].cell)
    requires |after| >= |before| - 1 && after[..|before| - 1] == before[1..]
    requires forall i :: |before| - 1 <= i < |after| ==>
      Leads(g, danger, start, after[i]) && |after[i].path| == |before[0].path| + 1 && InGrid(g, after[i].cell)
    requires forall k :: 0 <= k < 8 && Step(g, danger, before[0].cell, Offset(before[0].cell, k)) ==>
      Offset(before[0].cell, k) in explored + {before[0].cell} || Pending(after, Offset(before[0].cell, k), |before[0].path| + 1)
    ensures Inv(g, danger, start, targets, universe, after, explored + {before[0].cell},
                depth[before[0].cell := |before[0].path|])
  {
    var e := before[0];
    var d := |e.path|;
    var rest := before[1..];
    var explored' := explored + {e.cell};
    var depth' := depth[e.cell := d];
    DepthAfterVisit(g, danger, start, explored, depth, e.cell, d);
    ClosedAfterVisit(g, danger, explored, depth, before, after, d);
    forall i | 0 <= i < |after|
      ensures d <= |after[i].path| <= d + 1
      ensures Leads(g, danger, start, after[i]) && after[i].cell in universe
    {
      if i < |rest| {
        assert after[i] == before[i + 1];
      }
    }
    assert Sorted(after) by {
      forall i, j | 0 <= i <= j < |after|
        ensures |after[i].path| <= |after[j].path|
      {
        if j < |rest| {
          assert after[i] == before[i + 1] && after[j] == before[j + 1];
        }
      }
    }
    if |after| > 0 {
      FrontAdvance(g, danger, start, explored', depth', after, e, d);
    } else if d > 0 {
      assert IsWalk(g, danger, start, []);
    }
  }

  /** The first target taken off the queue is at the end of a shortest walk to any target. */
  lemma FrontTargetIsNearest(g: Grid, danger: set<Pos>, start: Pos, targets: set<Pos>, universe: set<Pos>,
                             queue: seq<Entry>, explored: set<Pos>, depth: map<Pos, nat>)
    requires Rectangular(g)
    requires Inv(g, danger, start, targets, universe, queue, explored, depth)
    requires |queue| > 0
    ensures forall v :: IsWalk(g, danger, start, v) && IsTarget(g, targets, Last(start, v)) ==> |queue[0].path| <= |v|
  {
  }

  /** Takes the unexplored, non-target front entry off the queue and queues its neighbours. */
  method ExploreFront(g: Grid, danger: set<Pos>, start: Pos, targets: set<Pos>, ghost universe: set<Pos>,
                      queue: seq<Entry>, explored: set<Pos>, ghost depth: map<Pos, nat>)
    returns (q: seq<Entry>)
    requires Rectangular(g)
    requires universe == AllCells(Rows(g), Cols(g)) + {start}
    requires Inv(g, danger, start, targets, universe, queue, explored, depth)
    requires |queue| > 0 && queue[0].cell !in explored && !IsTarget(g, targets, queue[0].cell)
    ensures Inv(g, danger, start, targets, universe, q, explored + {queue[0].cell},
                depth[queue[0].cell := |queue[0].path|])
    ensures |universe - (explored + {queue[0].cell})| < |universe - explored|
    ensures q == queue[1..] + Children(g, danger, explored + {queue[0].cell}, queue[0], 8)
  {
    var e := queue[0];
    UnexploredShrinks(universe, explored, e.cell);
    q := Expand(g, danger, start, explored + {e.cell}, queue[1..], e);
    InvAfterVisit(g, danger, start, targets, universe, queue, q, explored, depth);
  }

  // ----- the order in which entries are explored -----

  /** What `Expand` queues: for each qualifying direction the entry's path extended by that
      neighbour, every one of them for a qualifying direction below `k`, in scan order. */
  lemma {:induction false} ChildrenFacts(g: Grid, danger: set<Pos>, explored: set<Pos>, e: Entry, k: nat)
    requires k <= 8
    ensures var c := Children(g, danger, explored, e, k);
      forall j :: 0 <= j < k && InGrid(g, Offset(e.cell, j)) && Offset(e.cell, j) !in danger && Offset(e.cell, j) !in explored ==>
        exists i :: 0 <= i < |c| && c[i] == Entry(Offset(e.cell, j), e.path + [Offset(e.cell, j)])
    ensures var c := Children(g, danger, explored, e, k);
      forall i :: 0 <= i < |c| ==>
        && c[i].path == e.path + [c[i].cell] && c[i].cell !in explored && InGrid(g, c[i].cell) && c[i].cell !in danger
        && DirOf(e.cell, c[i].cell) < k && Offset(e.cell, DirOf(e.cell, c[i].cell)) == c[i].cell
    ensures var c := Children(g, danger, explored, e, k);
      forall i, i' :: 0 <= i < i' < |c| ==> DirOf(e.cell, c[i].cell) < DirOf(e.cell, c[i'].cell)
    decreases k
  {
    if k > 0 {
      ChildrenFacts(g, danger, explored, e, k - 1);
      DirOfOffset(e.cell, k - 1);
      var c0 := Children(g, danger, explored, e, k - 1);
      var c := Children(g, danger, explored, e, k);
      forall j | 0 <= j < k && InGrid(g, Offset(e.cell, j)) && Offset(e.cell, j) !in danger && Offset(e.cell, j) !in explored
        ensures exists i :: 0 <= i < |c| && c[i] == Entry(Offset(e.cell, j), e.path + [Offset(e.cell, j)])
      {
        if j < k - 1 {
          var i :| 0 <= i < |c0| && c0[i] == Entry(Offset(e.cell, j), e.path + [Offset(e.cell, j)]);
          assert c[i] == c0[i];
        } else {
          assert c[|c0|] == Entry(Offset(e.cell, j), e.path + [Offset(e.cell, j)]);
        }
      }
      forall i | 0 <= i < |c|
        ensures DirOf(e.cell, c[i].cell) < k
      {
        if i < |c0| {
          assert c[i] == c0[i];
        }
      }
    }
  }

  /** Each queued child's path is the entry's path extended by the child's cell. */
  lemma {:induction false} ChildExtendsPath(g: Grid, danger: set<Pos>, explored: set<Pos>, e: Entry, k: nat, i: nat)
    requires k <= 8 && i < |Children(g, danger, explored, e, k)|
    ensures Children(g, danger, explored, e, k)[i].path == e.path + [Children(g, danger, explored, e, k)[i].cell]
    decreases k
  {
    var c0 := Children(g, danger, explored, e, k - 1);
    if i < |c0| {
      ChildExtendsPath(g, danger, explored, e, k - 1, i);
    }
  }

  /** A path that leaves a cell already explored with a path no later than `front`. */
  ghost predicate ParentExplored(start: Pos, explored: set<Pos>, p: seq<Pos>, front: seq<Pos>)
  {
    |p| > 0 ==> Last(start, p[..|p| - 1]) in explored && NotAfter(start, p[..|p| - 1], front)
  }

  /** Some queued entry for `n` has a path the search meets no later than `bound`. */
  ghost predicate Offered(start: Pos, q: seq<Entry>, n: Pos, bound: seq<Pos>)
  {
    exists i :: 0 <= i < |q| && q[i].cell == n && NotAfter(start, q[i].path, bound)
  }

  /** What the search loop keeps true about the order of the walks it meets: the queue is in
      search order, every explored cell was explored with its earliest walk (`via`), and every
      step out of an explored cell is explored or offered no later than through that walk. */
  ghost predicate OrderInv(g: Grid, danger: set<Pos>, start: Pos, queue: seq<Entry>, explored: set<Pos>,
                           via: map<Pos, seq<Pos>>)
  {
    && via.Keys == explored
    && (forall x :: x in via ==> IsWalk(g, danger, start, via[x]) && Last(start, via[x]) == x)
    && (forall i, j :: 0 <= i <= j < |queue| ==> NotAfter(start, queue[i].path, queue[j].path))
    && (forall i :: 0 <= i < |queue| ==> ParentExplored(start, explored, queue[i].path, queue[0].path))
    && (forall z, n :: z in via && Step(g, danger, z, n) ==> n in explored || Offered(start, queue, n, via[z] + [n]))
    && (forall v :: IsWalk(g, danger, start, v) && Last(start, v) in via ==> NotAfter(start, via[Last(start, v)], v))
    && (start in explored || (|queue| > 0 && queue[0] == Entry(start, [])))
  }

  /** Every walk the search meets before the front entry's path ends in an explored cell. */
  lemma {:induction false} EarlierThanFrontExplored(g: Grid, danger: set<Pos>, start: Pos, queue: seq<Entry>,
                                                    explored: set<Pos>, via: map<Pos, seq<Pos>>, u: seq<Pos>)
    requires OrderInv(g, danger, start, queue, explored, via) && |queue| > 0
    requires IsWalk(g, danger, start, u) && Earlier(start, u, queue[0].path)
    ensures Last(start, u) in explored
    decreases |u|
  {
    var f := queue[0].path;
    if |u| > 0 {
      var u0, n := u[..|u| - 1], u[|u| - 1];
      SplitLast(u);
      WalkSplit(g, danger, start, u);
      EarlierThanFrontExplored(g, danger, start, queue, explored, via, u0);
      var z := Last(start, u0);
      if n !in explored {
        var i :| 0 <= i < |queue| && queue[i].cell == n && NotAfter(start, queue[i].path, via[z] + [n]);
        if via[z] != u0 {
          ExtendKeepsEarlier(start, via[z], u0, n, n);
        }
        EarlierTrans(start, queue[i].path, via[z] + [n], u);
        EarlierTrans(start, queue[i].path, u, f);
        EarlierTrans(start, f, queue[i].path, f);
        EarlierIrreflexive(start, f);
        assert false;
      }
    }
  }

  lemma SplitLast(u: seq<Pos>)
    requires |u| > 0
    ensures u == u[..|u| - 1] + [u[|u| - 1]]
  {
  }

  /** At the start only the start entry is queued and nothing is explored. */
  lemma OrderInit(g: Grid, danger: set<Pos>, start: Pos)
    ensures OrderInv(g, danger, start, [Entry(start, [])], {}, map[])
  {
  }

  /** Popping an entry of an already explored cell keeps the order facts. */
  lemma OrderAfterSkip(g: Grid, danger: set<Pos>, start: Pos, queue: seq<Entry>, explored: set<Pos>,
                       via: map<Pos, seq<Pos>>)
    requires OrderInv(g, danger, start, queue, explored, via)
    requires |queue| > 0 && queue[0].cell in explored
    ensures OrderInv(g, danger, start, queue[1..], explored, via)
  {
    var rest := queue[1..];
    forall i, j | 0 <= i <= j < |rest|
      ensures NotAfter(start, rest[i].path, rest[j].path)
    {
      assert rest[i] == queue[i + 1] && rest[j] == queue[j + 1];
    }
    forall i | 0 <= i < |rest|
      ensures ParentExplored(start, explored, rest[i].path, rest[0].path)
    {
      var p := rest[i].path;
      assert rest[i] == queue[i + 1] && rest[0] == queue[1];
      assert NotAfter(start, queue[0].path, queue[1].path);
      if |p| > 0 {
        EarlierTrans(start, p[..|p| - 1], queue[0].path, queue[1].path);
      }
    }
    forall z, n | z in via && Step(g, danger, z, n) && n !in explored
      ensures Offered(start, rest, n, via[z] + [n])
    {
      var i :| 0 <= i < |queue| && queue[i].cell == n && NotAfter(start, queue[i].path, via[z] + [n]);
      assert rest[i - 1] == queue[i];
    }
  }

  /** A walk to a cell not yet explored is not met before the front entry's path. */
  lemma NotEarlierThanFront(g: Grid, danger: set<Pos>, start: Pos, queue: seq<Entry>,
                            explored: set<Pos>, via: map<Pos, seq<Pos>>, u: seq<Pos>)
    requires OrderInv(g, danger, start, queue, explored, via) && |queue| > 0
    requires IsWalk(g, danger, start, u) && Last(start, u) !in explored
    ensures !Earlier(start, u, queue[0].path)
  {
    if Earlier(start, u, queue[0].path) {
      EarlierThanFrontExplored(g, danger, start, queue, explored, via, u);
      assert false;
    }
  }

  /** Exploring the front cell with its path: that path is its earliest walk. */
  lemma ViaAfterVisit(g: Grid, danger: set<Pos>, start: Pos, queue: seq<Entry>,
                      explored: set<Pos>, via: map<Pos, seq<Pos>>)
    requires OrderInv(g, danger, start, queue, explored, via) && |queue| > 0
    requires Leads(g, danger, start, queue[0]) && queue[0].cell !in explored
    ensures var via' := via[queue[0].cell := queue[0].path];
      && (forall x :: x in via' ==> IsWalk(g, danger, start, via'[x]) && Last(start, via'[x]) == x)
      && (forall v :: IsWalk(g, danger, start, v) && Last(start, v) in via' ==> NotAfter(start, via'[Last(start, v)], v))
  {
    var f := queue[0];
    var via' := via[f.cell := f.path];
    forall v | IsWalk(g, danger, start, v) && Last(start, v) in via'
      ensures NotAfter(start, via'[Last(start, v)], v)
    {
      if Last(start, v) == f.cell {
        NotEarlierThanFront(g, danger, start, queue, explored, via, v);
        WalkOrderTotal(g, danger, start, v, f.path);
      }
    }
  }

  /** A queued path no longer than the front's child, leaving a cell explored before the front,
      is met no later than that child. */
  lemma OlderBeforeChild(start: Pos, explored: set<Pos>, x: seq<Pos>, f: seq<Pos>, n: Pos)
    requires |x| <= |f| + 1 && ParentExplored(start, explored, x, f) && Last(start, f) !in explored
    ensures NotAfter(start, x, f + [n])
  {
    if |x| == |f| + 1 {
      var px := x[..|x| - 1];
      assert px != f;
      SplitLast(x);
      ExtendKeepsEarlier(start, px, f, x[|x| - 1], n);
    }
  }

  /** After exploring the front, the queue with the front's children appended is in search order. */
  lemma SortedAfterVisit(g: Grid, danger: set<Pos>, start: Pos, queue: seq<Entry>,
                         explored: set<Pos>, via: map<Pos, seq<Pos>>)
    requires OrderInv(g, danger, start, queue, explored, via) && |queue| > 0
    requires Leads(g, danger, start, queue[0]) && queue[0].cell !in explored
    requires forall i :: 0 <= i < |queue| ==> |queue[i].path| <= |queue[0].path| + 1
    ensures var f := queue[0];
      var after := queue[1..] + Children(g, danger, explored + {f.cell}, f, 8);
      forall i, j :: 0 <= i <= j < |after| ==> NotAfter(start, after[i].path, after[j].path)
  {
    var f := queue[0];
    var rest := queue[1..];
    var c := Children(g, danger, explored + {f.cell}, f, 8);
    var after := rest + c;
    ChildrenFacts(g, danger, explored + {f.cell}, f, 8);
    forall i, j | 0 <= i <= j < |after|
      ensures NotAfter(start, after[i].path, after[j].path)
    {
      if j < |rest| {
        assert after[i] == queue[i + 1] && after[j] == queue[j + 1];
      } else if i >= |rest| {
        var a, b := c[i - |rest|], c[j - |rest|];
        assert after[i] == a && after[j] == b;
        if i < j {
          SiblingOrder(start, f.path, a.cell, b.cell);
        }
      } else {
        var b := c[j - |rest|];
        assert after[i] == queue[i + 1] && after[j] == b;
        OlderBeforeChild(start, explored, queue[i + 1].path, f.path, b.cell);
      }
    }
  }

  lemma ParentKept(start: Pos, explored: set<Pos>, x: Pos, p: seq<Pos>, f: seq<Pos>, f': seq<Pos>)
    requires ParentExplored(start, explored, p, f) && NotAfter(start, f, f')
    ensures ParentExplored(start, explored + {x}, p, f')
  {
    if |p| > 0 {
      EarlierTrans(start, p[..|p| - 1], f, f');
    }
  }

  lemma ChildParent(start: Pos, explored: set<Pos>, f: seq<Pos>, n: Pos, f': seq<Pos>)
    requires NotAfter(start, f, f')
    ensures ParentExplored(start, explored + {Last(start, f)}, f + [n], f')
  {
    assert (f + [n])[..|f|] == f;
  }

  /** After exploring the front, the new front's path is not met before the old one. */
  lemma FrontAdvances(g: Grid, danger: set<Pos>, start: Pos, queue: seq<Entry>, explored: set<Pos>)
    requires |queue| > 0
    requires |queue| > 1 ==> NotAfter(start, queue[0].path, queue[1].path)
    ensures var f := queue[0];
      var after := queue[1..] + Children(g, danger, explored + {f.cell}, f, 8);
      |after| > 0 ==> NotAfter(start, f.path, after[0].path)
  {
    var f := queue[0];
    var c := Children(g, danger, explored + {f.cell}, f, 8);
    var after := queue[1..] + c;
    if |queue| > 1 {
      assert after[0] == queue[1];
    } else if |c| > 0 {
      ChildExtendsPath(g, danger, explored + {f.cell}, f, 8, 0);
      assert after[0] == c[0];
    }
  }

  /** After exploring the front, the i-th queued path leaves an explored cell whose path is no
      later than the new front's. */
  lemma ParentAfterVisitAt(g: Grid, danger: set<Pos>, start: Pos, queue: seq<Entry>, explored: set<Pos>, i: nat)
    requires |queue| > 0 && Leads(g, danger, start, queue[0])
    requires forall i :: 0 <= i < |queue| ==> ParentExplored(start, explored, queue[i].path, queue[0].path)
    requires var after := queue[1..] + Children(g, danger, explored + {queue[0].cell}, queue[0], 8);
      i < |after| && NotAfter(start, queue[0].path, after[0].path)
    ensures var after := queue[1..] + Children(g, danger, explored + {queue[0].cell}, queue[0], 8);
      ParentExplored(start, explored + {queue[0].cell}, after[i].path, after[0].path)
  {
    var f := queue[0];
    var rest := queue[1..];
    var c := Children(g, danger, explored + {f.cell}, f, 8);
    var after := rest + c;
    if i < |rest| {
      assert after[i] == queue[i + 1];
      ParentKept(start, explored, f.cell, queue[i + 1].path, f.path, after[0].path);
    } else {
      var x := c[i - |rest|];
      assert after[i] == x;
      ChildExtendsPath(g, danger, explored + {f.cell}, f, 8, i - |rest|);
      ChildParent(start, explored, f.path, x.cell, after[0].path);
    }
  }

  /** After exploring the front, every queued path leaves an explored cell whose path is no
      later than the new front's. */
  lemma ParentsAfterVisit(g: Grid, danger: set<Pos>, start: Pos, queue: seq<Entry>, explored: set<Pos>)
    requires |queue| > 0 && Leads(g, danger, start, queue[0])
    requires forall i :: 0 <= i < |queue| ==> ParentExplored(start, explored, queue[i].path, queue[0].path)
    requires |queue| > 1 ==> NotAfter(start, queue[0].path, queue[1].path)
    ensures var f := queue[0];
      var after := queue[1..] + Children(g, danger, explored + {f.cell}, f, 8);
      forall i :: 0 <= i < |after| ==> ParentExplored(start, explored + {f.cell}, after[i].path, after[0].path)
  {
    FrontAdvances(g, danger, start, queue, explored);
    var after := queue[1..] + Children(g, danger, explored + {queue[0].cell}, queue[0], 8);
    forall i | 0 <= i < |after|
      ensures ParentExplored(start, explored + {queue[0].cell}, after[i].path, after[0].path)
    {
      ParentAfterVisitAt(g, danger, start, queue, explored, i);
    }
  }

  /** After exploring the front, every step out of an explored cell is explored or offered. */
  lemma ClosedOrderAfterVisit(g: Grid, danger: set<Pos>, start: Pos, queue: seq<Entry>,
                              explored: set<Pos>, via: map<Pos, seq<Pos>>)
    requires OrderInv(g, danger, start, queue, explored, via) && |queue| > 0
    ensures var f := queue[0];
      var after := queue[1..] + Children(g, danger, explored + {f.cell}, f, 8);
      var via' := via[f.cell := f.path];
      forall z, n :: z in via' && Step(g, danger, z, n) ==>
        n in explored + {f.cell} || Offered(start, after, n, via'[z] + [n])
  {
    var f := queue[0];
    var rest := queue[1..];
    var c := Children(g, danger, explored + {f.cell}, f, 8);
    var after := rest + c;
    var via' := via[f.cell := f.path];
    ChildrenFacts(g, danger, explored + {f.cell}, f, 8);
    forall z, n | z in via' && Step(g, danger, z, n) && n !in explored + {f.cell}
      ensures Offered(start, after, n, via'[z] + [n])
    {
      if z == f.cell {
        OffsetOfDir(f.cell, n);
        var k := DirOf(f.cell, n);
        var i :| 0 <= i < |c| && c[i] == Entry(Offset(f.cell, k), f.path + [Offset(f.cell, k)]);
        assert after[|rest| + i] == c[i];
      } else {
        var i :| 0 <= i < |queue| && queue[i].cell == n && NotAfter(start, queue[i].path, via[z] + [n]);
        assert after[i - 1] == queue[i];
      }
    }
  }

  /** Exploring the front entry (not a target) and queueing its children keeps the order facts. */
  lemma OrderAfterVisit(g: Grid, danger: set<Pos>, start: Pos, queue: seq<Entry>,
                        explored: set<Pos>, via: map<Pos, seq<Pos>>)
    requires OrderInv(g, danger, start, queue, explored, via) && |queue| > 0
    requires Leads(g, danger, start, queue[0]) && queue[0].cell !in explored
    requires forall i :: 0 <= i < |queue| ==> |queue[i].path| <= |queue[0].path| + 1
    ensures OrderInv(g, danger, start, queue[1..] + Children(g, danger, explored + {queue[0].cell}, queue[0], 8),
                     explored + {queue[0].cell}, via[queue[0].cell := queue[0].path])
  {
    ViaAfterVisit(g, danger, start, queue, explored, via);
    SortedAfterVisit(g, danger, start, queue, explored, via);
    assert |queue| > 1 ==> NotAfter(start, queue[0].path, queue[1].path);
    ParentsAfterVisit(g, danger, start, queue, explored);
    ClosedOrderAfterVisit(g, danger, start, queue, explored, via);
  }

  /** When the front entry is a target, no walk to a target is met before its path. */
  lemma FrontTargetComesFirst(g: Grid, danger: set<Pos>, start: Pos, targets: set<Pos>, queue: seq<Entry>,
                              explored: set<Pos>, via: map<Pos, seq<Pos>>)
    requires Rectangular(g)
    requires OrderInv(g, danger, start, queue, explored, via) && |queue| > 0
    requires Leads(g, danger, start, queue[0])
    requires forall x :: x in explored ==> !IsTarget(g, targets, x)
    ensures forall v :: IsWalk(g, danger, start, v) && IsTarget(g, targets, Last(start, v)) ==>
      NotAfter(start, queue[0].path, v)
  {
    forall v | IsWalk(g, danger, start, v) && IsTarget(g, targets, Last(start, v))
      ensures NotAfter(start, queue[0].path, v)
    {
      NotEarlierThanFront(g, danger, start, queue, explored, via, v);
      WalkOrderTotal(g, danger, start, v, queue[0].path);
    }
  }

  /** The search: the first step towards the nearest target, found by a FIFO queue of
      (cell, path) entries with an explored set, exactly as the source runs it. `found` is
      `None` when the queue runs dry; the ghost `w` is the path to the target found. Among the
      shortest walks to a target it is the one the scan order meets first. */
  method NearestStep(g: Grid, start: Pos, targets: set<Pos>, danger: set<Pos>)
    returns (found: Option<Pos>, ghost w: seq<Pos>)
    requires Rectangular(g)
    ensures found.Some? ==>
      IsWalk(g, danger, start, w) && IsTarget(g, targets, Last(start, w)) && found.value == FirstStep(start, w)
    ensures found.Some? ==>
      forall v :: IsWalk(g, danger, start, v) && IsTarget(g, targets, Last(start, v)) ==> |w| <= |v|
    ensures found.Some? ==>
      forall v :: IsWalk(g, danger, start, v) && IsTarget(g, targets, Last(start, v)) ==> NotAfter(start, w, v)
    ensures found.None? ==>
      forall v :: IsWalk(g, danger, start, v) ==> !IsTarget(g, targets, Last(start, v))
  {
    var queue := [Entry(start, [])];
    var explored: set<Pos> := {};
    ghost var depth: map<Pos, nat> := map[];
    ghost var universe := AllCells(Rows(g), Cols(g)) + {start};
    ghost var via: map<Pos, seq<Pos>> := map[];
    OrderInit(g, danger, start);
    found := None;
    w := [];
    while |queue| > 0
      invariant Inv(g, danger, start, targets, universe, queue, explored, depth)
      invariant OrderInv(g, danger, start, queue, explored, via)
      decreases |universe - explored|, |queue|
    {
      var e := queue[0];
      if e.cell in explored {
        InvAfterSkip(g, danger, start, targets, universe, queue, explored, depth);
        OrderAfterSkip(g, danger, start, queue, explored, via);
        queue := queue[1..];
      } else {
        if IsTarget(g, targets, e.cell) {
          FrontTargetIsNearest(g, danger, start, targets, universe, queue, explored, depth);
          FrontTargetComesFirst(g, danger, start, targets, queue, explored, via);
          found := Some(if |e.path| > 0 then e.path[0] else e.cell);
          w := e.path;
          return;
        }
        OrderAfterVisit(g, danger, start, queue, explored, via);
        queue := ExploreFront(g, danger, start, targets, universe, queue, explored, depth);
        explored := explored + {e.cell};
        depth := depth[e.cell := |e.path|];
        via := via[e.cell := e.path];
      }
    }
    EmptyQueueHoldsAllWalks(g, danger, start, explored, depth);
  }

  /** With the queue empty, the explored set is closed under search moves and holds every walk's end. */
  lemma EmptyQueueHoldsAllWalks(g: Grid, danger: set<Pos>, start: Pos, explored: set<Pos>, depth: map<Pos, nat>)
    requires start in explored && depth.Keys == explored
    requires Closed(g, danger, explored, depth, [])
    ensures forall v :: IsWalk(g, danger, start, v) ==> Last(start, v) in explored
  {
    forall v | IsWalk(g, danger, start, v)
      ensures Last(start, v) in explored
    {
      ClosedSetHoldsWalks(g, danger, start, explored, v);
    }
  }
}
