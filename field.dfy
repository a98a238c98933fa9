/**
 * Distance fields of tc1/mapgraph.py (get_dijkstra): what a finished
 * breadth-first flood fill satisfies, why that is the shortest-path
 * distance, and the FIFO expansion loop proved to reach it.
 *
 * The properties are stated on planes, the values of a 30 x 30 array
 * keyed by cell, so that one step of the loop relates two values.
 */
module Field {
  import opened Wrappers
  import opened State
  import opened Grid

  type Plane = map<Cell, int>

  ghost predicate IsPlane(v: Plane)
  {
    forall c {:trigger c in v} :: c in v <==> InBox(c.0, c.1)
  }

  /** The cells of the padded grid. */
  ghost function BoxCells(): (s: set<Cell>)
    ensures forall c :: c in s <==> InBox(c.0, c.1)
  {
    set x, y | 0 <= x < PADDED_GRID_SIZE && 0 <= y < PADDED_GRID_SIZE :: (x, y)
  }

  /** The current values of a grid-sized array. */
  ghost function View(a: array2<int>): (v: Plane)
    requires Dims(a)
    reads a
    ensures IsPlane(v)
    ensures forall c :: c in v ==> v[c] == a[c.0, c.1]
  {
    map c: Cell | c in BoxCells() :: a[c.0, c.1]
  }

  /** a[c] = v on a grid-sized array. */
  method SetCell(a: array2<int>, c: Cell, v: int)
    requires Dims(a) && InBox(c.0, c.1)
    modifies a
    ensures View(a) == old(View(a))[c := v]
  {
    a[c.0, c.1] := v;
  }

  /** A cell the flood fill may enter: on the grid plane gv with value 0 (no structure, not off-map). */
  predicate Free(gv: Plane, dv: Plane, c: Cell)
  {
    c in gv && c in dv && gv[c] == 0
  }

  /** Every free cell is playable: true of the template and of every grid update_state paints. */
  ghost predicate GridOk(gv: Plane)
  {
    IsPlane(gv) && forall c :: c in gv && gv[c] == 0 ==> Playable(c.0, c.1)
  }

  predicate Adjacent(a: Cell, b: Cell)
  {
    Abs(a.0 - b.0) + Abs(a.1 - b.1) == 1
  }

  /** Neighbour offsets in the order get_dijkstra examines them. */
  function BfsDelta(j: int): Delta
  {
    if j == 0 then (-1, 0) else if j == 1 then (1, 0) else if j == 2 then (0, -1) else (0, 1)
  }

  function Nb(c: Cell, j: int): Cell
  {
    (c.0 + BfsDelta(j).0, c.1 + BfsDelta(j).1)
  }

  lemma AdjacentCases(p: Cell, n: Cell)
    ensures Adjacent(p, n) <==> n == Nb(p, 0) || n == Nb(p, 1) || n == Nb(p, 2) || n == Nb(p, 3)
  {
  }

  /** A free neighbour n of c is at most one step farther. */
  predicate NoFarther(gv: Plane, dv: Plane, c: Cell, n: Cell)
    requires c in dv
  {
    Free(gv, dv, n) ==> dv[n] <= dv[c] + 1
  }

  /** No edge out of a reached cell c can be relaxed any more. */
  predicate Relaxed(gv: Plane, dv: Plane, c: Cell)
    requires c in dv
  {
    dv[c] < INTMAX ==>
      && NoFarther(gv, dv, c, Nb(c, 0)) && NoFarther(gv, dv, c, Nb(c, 1))
      && NoFarther(gv, dv, c, Nb(c, 2)) && NoFarther(gv, dv, c, Nb(c, 3))
  }

  /** n is a free neighbour one step closer than c. */
  predicate StepsDown(gv: Plane, dv: Plane, c: Cell, n: Cell)
    requires c in dv
  {
    Free(gv, dv, n) && dv[n] == dv[c] - 1
  }

  predicate HasParent(gv: Plane, dv: Plane, c: Cell)
    requires c in dv
  {
    || StepsDown(gv, dv, c, Nb(c, 0)) || StepsDown(gv, dv, c, Nb(c, 1))
    || StepsDown(gv, dv, c, Nb(c, 2)) || StepsDown(gv, dv, c, Nb(c, 3))
  }

  /**
   * dv is the distance field of grid gv from the seed cells: seeds hold 0,
   * reached cells hold less than 420 (there are no more playable cells than that),
   * every other reached cell has a neighbour one closer, no edge between
   * free cells can be relaxed, and cells the fill never enters keep the
   * distance template (INTMAX if playable, -1 off the map).
   */
  ghost predicate IsFieldOf(gv: Plane, dv: Plane, seeds: set<Cell>)
  {
    && IsPlane(gv) && IsPlane(dv)
    && (forall c :: c in seeds ==> Free(gv, dv, c))
    && (forall c :: c in gv && c in dv && gv[c] != 0 ==> dv[c] == DTemplateValue(c.0, c.1))
    && (forall c :: Free(gv, dv, c) ==> 0 <= dv[c] <= INTMAX)
    && (forall c :: Free(gv, dv, c) && dv[c] < INTMAX ==> dv[c] < PLAYABLE_CELLS)
    && (forall c :: Free(gv, dv, c) ==> (dv[c] == 0 <==> c in seeds))
    && (forall c :: Free(gv, dv, c) && 0 < dv[c] < INTMAX ==> HasParent(gv, dv, c))
    && (forall c :: Free(gv, dv, c) ==> Relaxed(gv, dv, c))
  }

  /** The array d is the distance field of the array grid g from the seeds. */
  ghost predicate IsField(g: array2<int>, d: array2<int>, seeds: set<Cell>)
    reads g, d
  {
    Dims(g) && Dims(d) && IsFieldOf(View(g), View(d), seeds)
  }

  /** A walk through free cells by unit 4-neighbour steps; |p| - 1 steps. */
  ghost predicate IsPath(gv: Plane, dv: Plane, p: seq<Cell>)
  {
    && |p| >= 1
    && (forall k :: 0 <= k < |p| ==> Free(gv, dv, p[k]))
    && (forall k :: 0 <= k < |p| - 1 ==> Adjacent(p[k], p[k + 1]))
  }

  /** One step along a walk from a reached cell adds at most one to the field value. */
  lemma StepBound(gv: Plane, dv: Plane, a: Cell, b: Cell)
    requires a in dv && Relaxed(gv, dv, a) && dv[a] < INTMAX && Free(gv, dv, b) && Adjacent(a, b)
    ensures dv[b] <= dv[a] + 1
  {
    AdjacentCases(a, b);
  }

  /** Every walk from a seed is at least as long as the field value at its end. */
  lemma {:induction false} PathLengthBound(gv: Plane, dv: Plane, seeds: set<Cell>, p: seq<Cell>)
    requires IsFieldOf(gv, dv, seeds) && IsPath(gv, dv, p) && p[0] in seeds
    ensures dv[p[|p| - 1]] <= |p| - 1
    decreases |p|
  {
    var n := |p| - 1;
    if n > 0 {
      var front := p[..n];
      assert IsPath(gv, dv, front) by {
        forall k | 0 <= k < |front| - 1 ensures Adjacent(front[k], front[k + 1]) {
          assert Adjacent(p[k], p[k + 1]);
        }
      }
      PathLengthBound(gv, dv, seeds, front);
      var a, b := p[n - 1], p[n];
      assert Free(gv, dv, a) && Free(gv, dv, b) && Adjacent(a, b);
      if dv[a] < INTMAX {
        StepBound(gv, dv, a, b);
      } else {
        assert dv[b] <= INTMAX;
      }
    } else {
      assert Free(gv, dv, p[0]);
    }
  }

  /** The first neighbour one step closer (exists whenever HasParent holds). */
  function ParentOf(gv: Plane, dv: Plane, c: Cell): (p: Cell)
    requires c in dv && HasParent(gv, dv, c)
    ensures Free(gv, dv, p) && dv[p] == dv[c] - 1 && Adjacent(c, p)
  {
    if StepsDown(gv, dv, c, Nb(c, 0)) then Nb(c, 0)
    else if StepsDown(gv, dv, c, Nb(c, 1)) then Nb(c, 1)
    else if StepsDown(gv, dv, c, Nb(c, 2)) then Nb(c, 2)
    else Nb(c, 3)
  }

  /** A walk from a seed to a reached cell with exactly as many steps as its field value. */
  ghost function PathFromSeed(gv: Plane, dv: Plane, seeds: set<Cell>, c: Cell): (p: seq<Cell>)
    requires IsFieldOf(gv, dv, seeds) && Free(gv, dv, c) && dv[c] < INTMAX
    ensures IsPath(gv, dv, p) && p[0] in seeds && p[|p| - 1] == c
    ensures |p| == dv[c] + 1
    decreases dv[c]
  {
    if dv[c] == 0 then [c]
    else
      var parent := ParentOf(gv, dv, c);
      AdjacentSymmetric(c, parent);
      PathFromSeed(gv, dv, seeds, parent) + [c]
  }

  lemma AdjacentSymmetric(a: Cell, b: Cell)
    ensures Adjacent(a, b) == Adjacent(b, a)
  {
  }

  /**
   * The field is the shortest-path distance: a reached cell has a walk of
   * exactly dv[c] steps from a seed and none shorter; an unreached free
   * cell has no walk from a seed shorter than INTMAX steps.
   */
  lemma FieldIsShortestDistance(gv: Plane, dv: Plane, seeds: set<Cell>, c: Cell, p: seq<Cell>)
    requires IsFieldOf(gv, dv, seeds) && Free(gv, dv, c)
    requires IsPath(gv, dv, p) && p[0] in seeds && p[|p| - 1] == c
    ensures dv[c] <= |p| - 1
    ensures dv[c] < INTMAX ==> |PathFromSeed(gv, dv, seeds, c)| - 1 == dv[c]
    ensures |p| - 1 < INTMAX ==> dv[c] < INTMAX
  {
    PathLengthBound(gv, dv, seeds, p);
  }

  /**
   * The distance field of a grid and a seed set is unique: two fields of the
   * same grid from the same seeds agree on every cell.
   */
  lemma FieldIsUnique(gv: Plane, d1: Plane, d2: Plane, seeds: set<Cell>)
    requires IsFieldOf(gv, d1, seeds) && IsFieldOf(gv, d2, seeds)
    ensures d1 == d2
  {
    assert forall c :: c in d1 <==> c in d2;
    assert forall c :: Free(gv, d1, c) <==> Free(gv, d2, c);
    forall c | c in d1 ensures d1[c] == d2[c] {
      if gv[c] == 0 {
        if d1[c] < INTMAX || d2[c] < INTMAX {
          ReachedAgrees(gv, d1, d2, seeds, c);
        }
      }
    }
  }

  /** A cell one field reaches holds the same value in any other field of the grid and seeds. */
  lemma ReachedAgrees(gv: Plane, d1: Plane, d2: Plane, seeds: set<Cell>, c: Cell)
    requires IsFieldOf(gv, d1, seeds) && IsFieldOf(gv, d2, seeds)
    requires Free(gv, d1, c) && Free(gv, d2, c) && (d1[c] < INTMAX || d2[c] < INTMAX)
    ensures d1[c] == d2[c]
  {
    assert forall x :: Free(gv, d1, x) <==> Free(gv, d2, x);
    if d1[c] < INTMAX {
      var p := PathFromSeed(gv, d1, seeds, c);
      assert IsPath(gv, d2, p);
      FieldIsShortestDistance(gv, d2, seeds, c, p);
      var p2 := PathFromSeed(gv, d2, seeds, c);
      assert IsPath(gv, d1, p2);
      FieldIsShortestDistance(gv, d1, seeds, c, p2);
    } else {
      var p := PathFromSeed(gv, d2, seeds, c);
      assert IsPath(gv, d1, p);
      FieldIsShortestDistance(gv, d1, seeds, c, p);
    }
  }

  // ---- the 420 playable cells ----

  lemma SubsetCard<T>(a: set<T>, b: set<T>)
    requires a <= b
    ensures |a| <= |b|
    decreases |b|
  {
    if a != {} {
      var x :| x in a;
      SubsetCard(a - {x}, b - {x});
    }
  }

  /** The integers lo .. lo + n - 1. */
  function Span(lo: int, n: nat): (r: set<int>)
    ensures forall i :: i in r <==> lo <= i < lo + n
    ensures |r| == n
  {
    if n == 0 then {} else Span(lo, n - 1) + {lo + n - 1}
  }

  /** How many playable cells column x holds: 2, 4, ..., 28, then 28, ..., 2. */
  function ColumnWidth(x: int): int
  {
    if 1 <= x <= 14 then 2 * x else if 15 <= x <= 28 then 2 * (29 - x) else 0
  }

  /** How many playable cells the columns 0 .. X - 1 hold. */
  function ColumnsBefore(X: nat): int
  {
    if X == 0 then 0 else ColumnsBefore(X - 1) + ColumnWidth(X - 1)
  }

  lemma {:induction false} ColumnsBeforeClosed(X: nat)
    requires X <= 29
    ensures 1 <= X <= 15 ==> ColumnsBefore(X) == (X - 1) * X
    ensures 15 <= X ==> ColumnsBefore(X) == PLAYABLE_CELLS - (29 - X) * (30 - X)
  {
    if X > 1 {
      ColumnsBeforeClosed(X - 1);
      if X <= 15 {
        assert (X - 2) * (X - 1) + 2 * (X - 1) == (X - 1) * X;
      } else {
        assert (30 - X) * (31 - X) - 2 * (30 - X) == (29 - X) * (30 - X);
      }
    }
  }

  /** Cells of one column are told apart by their row. */
  lemma {:induction false} ColumnImageCard(s: set<Cell>, x: int)
    requires forall c :: c in s ==> c.0 == x
    ensures |set c | c in s :: c.1| == |s|
    decreases |s|
  {
    if s != {} {
      var c :| c in s;
      var rest := s - {c};
      ColumnImageCard(rest, x);
      var img, imgRest := set e | e in s :: e.1, set e | e in rest :: e.1;
      assert img == imgRest + {c.1};
      assert c.1 !in imgRest;
    }
  }

  /** Playable cells of column x: at most its width. */
  lemma ColumnCard(s: set<Cell>, x: int)
    requires forall c :: c in s ==> c.0 == x && Playable(c.0, c.1)
    ensures |s| <= ColumnWidth(x)
  {
    ColumnImageCard(s, x);
    var ys := set c | c in s :: c.1;
    var lo := if x <= 14 then 15 - x else x - 14;
    SubsetCard(ys, Span(lo, if 1 <= x <= 28 then ColumnWidth(x) else 0));
  }

  /** Playable cells left of column X: at most the widths of those columns. */
  lemma {:induction false} ColumnsCard(s: set<Cell>, X: nat)
    requires forall c :: c in s ==> Playable(c.0, c.1) && c.0 < X
    ensures |s| <= ColumnsBefore(X)
    decreases X
  {
    if X == 0 {
      assert s == {};
    } else {
      var col := set c | c in s && c.0 == X - 1;
      var rest := s - col;
      ColumnsCard(rest, X - 1);
      ColumnCard(col, X - 1);
      assert s == rest + col;
    }
  }

  /** A set of playable cells has at most 420 elements. */
  lemma PlayableSetCard(s: set<Cell>)
    requires forall c :: c in s ==> Playable(c.0, c.1)
    ensures |s| <= PLAYABLE_CELLS
  {
    ColumnsCard(s, 29);
    ColumnsBeforeClosed(29);
  }

  // ---- the FIFO expansion of get_dijkstra ----

  /** Facts about every cell: template values off the fill, reached cells are the queued ones, parents. */
  ghost predicate CellFacts(gv: Plane, dv: Plane, inQ: set<Cell>, seeds: set<Cell>)
  {
    && GridOk(gv) && IsPlane(dv)
    && (forall c :: c in seeds ==> Free(gv, dv, c))
    && (forall c :: c in gv && c in dv && gv[c] != 0 ==> dv[c] == DTemplateValue(c.0, c.1))
    && (forall c :: Free(gv, dv, c) ==> 0 <= dv[c] <= INTMAX)
    && (forall c :: Free(gv, dv, c) ==> (dv[c] < INTMAX <==> c in inQ))
    && (forall c :: Free(gv, dv, c) ==> (dv[c] == 0 <==> c in seeds))
    && (forall c :: Free(gv, dv, c) && 0 < dv[c] < INTMAX ==> HasParent(gv, dv, c))
  }

  /** FIFO facts: values bounded by position, non-decreasing along the queue, within one of the head. */
  ghost predicate QueueFacts(gv: Plane, dv: Plane, q: seq<Cell>, h: int)
  {
    && 0 <= h <= |q|
    && (forall k :: 0 <= k < |q| ==> Free(gv, dv, q[k]) && dv[q[k]] <= k)
    && (forall k1, k2 :: 0 <= k1 <= k2 < |q| ==> dv[q[k1]] <= dv[q[k2]])
    && (h < |q| ==> forall k :: 0 <= k < |q| ==> dv[q[k]] <= dv[q[h]] + 1)
  }

  /** The first h entries are relaxed, and the first j neighbours of entry h. */
  ghost predicate DoneFacts(gv: Plane, dv: Plane, q: seq<Cell>, h: int, j: int)
  {
    && QueueFacts(gv, dv, q, h)
    && (forall k :: 0 <= k < h ==> Relaxed(gv, dv, q[k]))
    && (h < |q| ==> forall i :: 0 <= i < j ==> NoFarther(gv, dv, q[h], Nb(q[h], i)))
  }

  /**
   * The loop state once the first h queue entries are expanded and the
   * first j neighbours of entry h examined; inQ is the set of queued cells.
   */
  ghost predicate BfsState(gv: Plane, dv: Plane, q: seq<Cell>, inQ: set<Cell>, h: int, j: int, seeds: set<Cell>)
  {
    && 0 <= j <= 4
    && CellFacts(gv, dv, inQ, seeds) && DoneFacts(gv, dv, q, h, j)
    && (forall k :: 0 <= k < |q| ==> q[k] in inQ)
    && (forall c :: c in inQ ==> c in q)
    && |inQ| == |q|
  }

  /** The queued cells are distinct playable cells, so there are at most 420 of them. */
  lemma QueueBound(gv: Plane, dv: Plane, q: seq<Cell>, inQ: set<Cell>, h: int, j: int, seeds: set<Cell>)
    requires BfsState(gv, dv, q, inQ, h, j, seeds)
    ensures |q| <= PLAYABLE_CELLS
  {
    forall c | c in inQ ensures Playable(c.0, c.1) {
      var k :| 0 <= k < |q| && q[k] == c;
      assert Free(gv, dv, q[k]);
    }
    PlayableSetCard(inQ);
  }

  /** A blocked neighbour, or one already within c + 1, needs nothing done. */
  lemma SkipKeeps(gv: Plane, dv: Plane, q: seq<Cell>, inQ: set<Cell>, h: int, j: int, seeds: set<Cell>)
    requires BfsState(gv, dv, q, inQ, h, j, seeds) && h < |q| && j < 4
    requires Free(gv, dv, Nb(q[h], j)) ==> dv[Nb(q[h], j)] <= dv[q[h]] + 1
    ensures BfsState(gv, dv, q, inQ, h, j + 1, seeds)
  {
  }

  /** Lowering the free neighbour n of the head to c + 1: that neighbour held INTMAX, so it is new to the queue. */
  lemma LowerIsNew(gv: Plane, dv: Plane, q: seq<Cell>, inQ: set<Cell>, h: int, j: int, seeds: set<Cell>)
    requires BfsState(gv, dv, q, inQ, h, j, seeds) && h < |q| && j < 4
    requires Free(gv, dv, Nb(q[h], j)) && dv[Nb(q[h], j)] > dv[q[h]] + 1
    ensures dv[Nb(q[h], j)] == INTMAX && Nb(q[h], j) !in inQ
    ensures dv[q[h]] + 1 <= |q| < PLAYABLE_CELLS
    ensures forall k :: 0 <= k < |q| ==> q[k] != Nb(q[h], j)
  {
    var n := Nb(q[h], j);
    forall c | c in inQ + {n} ensures Playable(c.0, c.1) {
      if c != n {
        var k :| 0 <= k < |q| && q[k] == c;
        assert Free(gv, dv, q[k]);
      }
    }
    PlayableSetCard(inQ + {n});
  }

  /** A cell other than n keeps its parent when n goes from INTMAX to another value. */
  lemma LowerKeepsParent(gv: Plane, dv: Plane, n: Cell, v: int, c: Cell)
    requires c in dv && c != n && n in dv && dv[n] == INTMAX && dv[c] <= INTMAX && HasParent(gv, dv, c)
    ensures HasParent(gv, dv[n := v], c)
  {
    var dv' := dv[n := v];
    if StepsDown(gv, dv, c, Nb(c, 0)) {
      assert StepsDown(gv, dv', c, Nb(c, 0));
    } else if StepsDown(gv, dv, c, Nb(c, 1)) {
      assert StepsDown(gv, dv', c, Nb(c, 1));
    } else if StepsDown(gv, dv, c, Nb(c, 2)) {
      assert StepsDown(gv, dv', c, Nb(c, 2));
    } else {
      assert StepsDown(gv, dv', c, Nb(c, 3));
    }
  }

  lemma LowerKeepsCellFacts(gv: Plane, dv: Plane, inQ: set<Cell>, seeds: set<Cell>, p: Cell, n: Cell, v: int)
    requires CellFacts(gv, dv, inQ, seeds) && Free(gv, dv, p) && Free(gv, dv, n) && Adjacent(p, n)
    requires dv[p] < INTMAX - 1 && dv[n] == INTMAX && v == dv[p] + 1
    ensures CellFacts(gv, dv[n := v], inQ + {n}, seeds)
  {
    var dv' := dv[n := v];
    assert forall c :: Free(gv, dv', c) <==> Free(gv, dv, c);
    AdjacentCases(n, p);
    assert StepsDown(gv, dv', n, p);
    forall c | Free(gv, dv', c) && 0 < dv'[c] < INTMAX
      ensures HasParent(gv, dv', c)
    {
      if c != n {
        LowerKeepsParent(gv, dv, n, v, c);
      }
    }
  }

  lemma LowerKeepsQueueFacts(gv: Plane, dv: Plane, q: seq<Cell>, h: int, n: Cell)
    requires QueueFacts(gv, dv, q, h) && h < |q| && Free(gv, dv, n)
    requires dv[q[h]] + 1 <= |q| && forall k :: 0 <= k < |q| ==> q[k] != n
    ensures QueueFacts(gv, dv[n := dv[q[h]] + 1], q + [n], h)
  {
    var dv', q' := dv[n := dv[q[h]] + 1], q + [n];
    assert forall k :: 0 <= k < |q| ==> dv'[q'[k]] == dv[q[k]];
  }

  /** Cells that were relaxed stay relaxed: none of them is next to n, which held INTMAX. */
  lemma LowerKeepsRelaxed(gv: Plane, dv: Plane, n: Cell, v: int, c: Cell)
    requires c in dv && c != n && Free(gv, dv, n) && dv[n] == INTMAX && dv[c] < INTMAX - 1 && Relaxed(gv, dv, c)
    ensures Relaxed(gv, dv[n := v], c)
  {
  }

  lemma LowerKeepsDoneFacts(gv: Plane, dv: Plane, q: seq<Cell>, h: int, j: int, n: Cell)
    requires DoneFacts(gv, dv, q, h, j) && h < |q| && 0 <= j < 4 && n == Nb(q[h], j)
    requires Free(gv, dv, n) && dv[n] == INTMAX && dv[q[h]] < INTMAX - 1
    requires forall k :: 0 <= k < |q| ==> q[k] != n
    requires QueueFacts(gv, dv[n := dv[q[h]] + 1], q + [n], h)
    ensures DoneFacts(gv, dv[n := dv[q[h]] + 1], q + [n], h, j + 1)
  {
    var dv', q' := dv[n := dv[q[h]] + 1], q + [n];
    forall k | 0 <= k < h ensures Relaxed(gv, dv', q'[k]) {
      assert dv[q[k]] <= dv[q[h]];
      LowerKeepsRelaxed(gv, dv, n, dv[q[h]] + 1, q[k]);
    }
    forall i | 0 <= i < j + 1 ensures NoFarther(gv, dv', q'[h], Nb(q'[h], i)) {
      if i < j {
        assert NoFarther(gv, dv, q[h], Nb(q[h], i));
      }
    }
  }

  /** The ghost set still mirrors the queue after appending a new cell. */
  lemma MirrorAppend(q: seq<Cell>, inQ: set<Cell>, n: Cell)
    requires (forall k :: 0 <= k < |q| ==> q[k] in inQ) && (forall c :: c in inQ ==> c in q)
    requires |inQ| == |q| && n !in inQ
    ensures var q', inQ' := q + [n], inQ + {n};
      (forall k :: 0 <= k < |q'| ==> q'[k] in inQ') && (forall c :: c in inQ' ==> c in q') && |inQ'| == |q'|
  {
    var q' := q + [n];
    assert forall k :: 0 <= k < |q| ==> q'[k] == q[k];
    forall c | c in inQ + {n} ensures c in q' {
      if c != n {
        var k :| 0 <= k < |q| && q[k] == c;
        assert q'[k] == c;
      } else {
        assert q'[|q|] == n;
      }
    }
  }

  /** One successful relaxation (lower neighbour j of the head to c + 1 and enqueue it) keeps the loop state. */
  lemma LowerKeeps(gv: Plane, dv: Plane, q: seq<Cell>, inQ: set<Cell>, h: int, j: int, seeds: set<Cell>,
                    n: Cell, v: int)
    requires BfsState(gv, dv, q, inQ, h, j, seeds) && h < |q| && j < 4
    requires n == Nb(q[h], j) && v == dv[q[h]] + 1 && Free(gv, dv, n) && dv[n] > v
    ensures BfsState(gv, dv[n := v], q + [n], inQ + {n}, h, j + 1, seeds)
  {
    var p := q[h];
    LowerIsNew(gv, dv, q, inQ, h, j, seeds);
    AdjacentCases(p, n);
    LowerKeepsCellFacts(gv, dv, inQ, seeds, p, n, v);
    LowerKeepsQueueFacts(gv, dv, q, h, n);
    LowerKeepsDoneFacts(gv, dv, q, h, j, n);
    MirrorAppend(q, inQ, n);
  }

  lemma FinishDone(gv: Plane, dv: Plane, q: seq<Cell>, h: int)
    requires DoneFacts(gv, dv, q, h, 4) && h < |q|
    ensures DoneFacts(gv, dv, q, h + 1, 0)
  {
    assert Relaxed(gv, dv, q[h]) by {
      assert forall i :: 0 <= i < 4 ==> NoFarther(gv, dv, q[h], Nb(q[h], i));
    }
    if h + 1 < |q| {
      assert dv[q[h]] <= dv[q[h + 1]];
    }
  }

  /** All four neighbours of the head examined: move on to the next queue entry. */
  lemma FinishEntry(gv: Plane, dv: Plane, q: seq<Cell>, inQ: set<Cell>, h: int, seeds: set<Cell>)
    requires BfsState(gv, dv, q, inQ, h, 4, seeds) && h < |q|
    ensures BfsState(gv, dv, q, inQ, h + 1, 0, seeds)
  {
    FinishDone(gv, dv, q, h);
  }

  /** Queue exhausted: every reached cell was expanded, so the plane is the distance field. */
  lemma QueueEmptyIsField(gv: Plane, dv: Plane, q: seq<Cell>, inQ: set<Cell>, seeds: set<Cell>)
    requires BfsState(gv, dv, q, inQ, |q|, 0, seeds)
    ensures IsFieldOf(gv, dv, seeds)
  {
    QueueBound(gv, dv, q, inQ, |q|, 0, seeds);
    forall c | Free(gv, dv, c) && dv[c] < INTMAX ensures dv[c] < PLAYABLE_CELLS {
      var k :| 0 <= k < |q| && q[k] == c;
    }
    forall c | Free(gv, dv, c) ensures Relaxed(gv, dv, c) {
      if dv[c] < INTMAX {
        var k :| 0 <= k < |q| && q[k] == c;
        assert Relaxed(gv, dv, q[k]);
      }
    }
  }

  /**
   * One examination of neighbour j of the queue head, as values: the plane,
   * the queue and the set of queued cells afterwards.
   */
  ghost function RelaxStep(gv: Plane, dv: Plane, q: seq<Cell>, inQ: set<Cell>, h: int, j: int): (Plane, seq<Cell>, set<Cell>)
    requires 0 <= h < |q| && q[h] in dv
  {
    var n := Nb(q[h], j);
    if !Free(gv, dv, n) || dv[n] <= dv[q[h]] + 1 then (dv, q, inQ)
    else (dv[n := dv[q[h]] + 1], q + [n], inQ + {n})
  }

  /** Every examination keeps the loop state. */
  lemma RelaxStepKeeps(gv: Plane, dv: Plane, q: seq<Cell>, inQ: set<Cell>, h: int, j: int, seeds: set<Cell>)
    requires BfsState(gv, dv, q, inQ, h, j, seeds) && h < |q| && j < 4
    ensures q[h] in dv
    ensures var (dv', q', inQ') := RelaxStep(gv, dv, q, inQ, h, j);
      BfsState(gv, dv', q', inQ', h, j + 1, seeds) && |q| <= |q'| && q'[h] == q[h] && dv'[q[h]] == dv[q[h]]
  {
    assert Free(gv, dv, q[h]);
    var n := Nb(q[h], j);
    if !Free(gv, dv, n) || dv[n] <= dv[q[h]] + 1 {
      SkipKeeps(gv, dv, q, inQ, h, j, seeds);
    } else {
      LowerKeeps(gv, dv, q, inQ, h, j, seeds, n, dv[q[h]] + 1);
      AdjacentCases(q[h], n);
    }
  }

  /** Examine neighbour j of the queue head (x, y), whose value c was read when it was popped. */
  method RelaxNeighbour(g: array2<int>, d: array2<int>, q: seq<Cell>, ghost inQ: set<Cell>, h: int, j: int, x: int, y: int, c: int)
    returns (q': seq<Cell>)
    requires Dims(g) && Dims(d) && g != d && 0 <= h < |q|
    requires q[h] == (x, y) && Playable(x, y) && c == d[x, y]
    modifies d
    ensures q[h] in old(View(d))
    ensures View(d) == RelaxStep(View(g), old(View(d)), q, inQ, h, j).0
    ensures q' == RelaxStep(View(g), old(View(d)), q, inQ, h, j).1
  {
    ghost var gv, dv := View(g), View(d);
    PlayableNeighboursInBox(x, y);
    var nx, ny := x + BfsDelta(j).0, y + BfsDelta(j).1;
    assert Nb(q[h], j) == (nx, ny) && dv[q[h]] == c;
    assert (nx, ny) in gv && (nx, ny) in dv && gv[(nx, ny)] == g[nx, ny] && dv[(nx, ny)] == d[nx, ny];
    q' := q;
    if g[nx, ny] != 0 {
    } else if d[nx, ny] > c + 1 {
      SetCell(d, (nx, ny), c + 1);
      q' := q + [(nx, ny)];
    }
  }

  /** Pop the queue head, read its value once, and examine its four neighbours in order. */
  method ExpandEntry(g: array2<int>, d: array2<int>, q: seq<Cell>, ghost inQ: set<Cell>, h: int, ghost seeds: set<Cell>)
    returns (q': seq<Cell>, ghost inQ': set<Cell>)
    requires Dims(g) && Dims(d) && g != d && h < |q|
    requires BfsState(View(g), View(d), q, inQ, h, 0, seeds)
    modifies d
    ensures BfsState(View(g), View(d), q', inQ', h + 1, 0, seeds) && |q| <= |q'|
  {
    var x, y := q[h].0, q[h].1;
    assert Free(View(g), View(d), q[h]);
    var c := d[x, y];
    q', inQ' := q, inQ;
    for j := 0 to 4
      invariant BfsState(View(g), View(d), q', inQ', h, j, seeds)
      invariant |q| <= |q'| && q'[h] == (x, y) && c == View(d)[(x, y)]
    {
      ghost var dv := View(d);
      RelaxStepKeeps(View(g), dv, q', inQ', h, j, seeds);
      ghost var next := RelaxStep(View(g), dv, q', inQ', h, j);
      q' := RelaxNeighbour(g, d, q', inQ', h, j, x, y, c);
      inQ' := next.2;
    }
    FinishEntry(View(g), View(d), q', inQ', h, seeds);
  }

  /** The loop of get_dijkstra: expand queue entries first in, first out until none is left. */
  method Expand(g: array2<int>, d: array2<int>, q0: seq<Cell>, ghost inQ0: set<Cell>, ghost seeds: set<Cell>)
    requires Dims(g) && Dims(d) && g != d
    requires BfsState(View(g), View(d), q0, inQ0, 0, 0, seeds)
    modifies d
    ensures IsField(g, d, seeds)
  {
    var q, h := q0, 0;
    ghost var inQ := inQ0;
    QueueBound(View(g), View(d), q, inQ, h, 0, seeds);
    while h < |q|
      invariant BfsState(View(g), View(d), q, inQ, h, 0, seeds)
      invariant |q| <= PLAYABLE_CELLS
      decreases PLAYABLE_CELLS - |q|, |q| - h
    {
      q, inQ := ExpandEntry(g, d, q, inQ, h, seeds);
      h := h + 1;
      QueueBound(View(g), View(d), q, inQ, h, 0, seeds);
    }
    QueueEmptyIsField(View(g), View(d), q, inQ, seeds);
  }
}
