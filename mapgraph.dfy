/**
 * The MapGraph object of tc1/mapgraph.py: the two templates, the grid of
 * structures rebuilt each turn, the four distance maps, and the methods that
 * compute them and move the units of a GameState.
 */
module MapGraph {
  import opened Wrappers
  import opened State
  import opened Grid
  import opened Field
  import opened Movement

  /** What get_dijkstra is asked for: a border id, or a custom cell (a tuple). */
  datatype Source = Border(id: int) | Target(cell: Cell)

  /** The cells get_dijkstra seeds with 0: the unoccupied cells of the border, or the custom cell. */
  ghost function Seeds(gv: Plane, src: Source): set<Cell>
  {
    match src
    case Border(id) =>
      if FrontierNodes(id).Ok? then set c | c in FrontierNodes(id).value && c in gv && gv[c] == 0 else {}
    case Target(c) => {c}
  }

  /** The error get_dijkstra raises for a source, if any. */
  function SourceError(gv: Plane, src: Source): Option<Error>
    requires src.Target? ==> src.cell in gv
  {
    match src
    case Border(id) => if FrontierNodes(id).Err? then Some(WrongBorderId) else None
    case Target(c) => if gv[c] != 0 then Some(OccupiedTarget) else None
  }

  /** array.copy() of a grid-sized array. */
  method CopyPlane(a: array2<int>) returns (b: array2<int>)
    requires Dims(a)
    ensures fresh(b) && Dims(b) && View(b) == View(a)
  {
    b := new int[PADDED_GRID_SIZE, PADDED_GRID_SIZE];
    for x := 0 to PADDED_GRID_SIZE
      invariant forall i, j :: 0 <= i < x && 0 <= j < PADDED_GRID_SIZE ==> b[i, j] == a[i, j]
    {
      for y := 0 to PADDED_GRID_SIZE
        invariant forall i, j :: 0 <= i < x && 0 <= j < PADDED_GRID_SIZE ==> b[i, j] == a[i, j]
        invariant forall j :: 0 <= j < y ==> b[x, j] == a[x, j]
      {
        b[x, y] := a[x, y];
      }
    }
  }

  /** The cells of a sequence with no repetition: as many as its length. */
  lemma {:induction false} DistinctCard(q: seq<Cell>)
    requires forall k1, k2 :: 0 <= k1 < k2 < |q| ==> q[k1] != q[k2]
    ensures |set c | c in q| == |q|
  {
    if q != [] {
      var init := q[..|q| - 1];
      DistinctCard(init);
      assert (set c | c in q) == (set c | c in init) + {q[|q| - 1]};
      assert q[|q| - 1] !in (set c | c in init);
    }
  }

  /**
   * After seeding: the distance template with 0 on the queued cells, which
   * are distinct free cells, is the start of the flood fill from them.
   */
  lemma SeededIsBfsStart(gv: Plane, dv: Plane, q: seq<Cell>, seeds: set<Cell>)
    requires GridOk(gv) && IsPlane(dv)
    requires forall c :: c in dv ==> dv[c] == (if c in seeds then 0 else DTemplateValue(c.0, c.1))
    requires seeds == set c | c in q
    requires forall k :: 0 <= k < |q| ==> Free(gv, dv, q[k])
    requires forall k1, k2 :: 0 <= k1 < k2 < |q| ==> q[k1] != q[k2]
    ensures BfsState(gv, dv, q, seeds, 0, 0, seeds)
  {
    DistinctCard(q);
    forall c | Free(gv, dv, c)
      ensures 0 <= dv[c] <= INTMAX && (dv[c] < INTMAX <==> c in seeds) && (dv[c] == 0 <==> c in seeds)
    {
      assert Playable(c.0, c.1);
    }
  }

  // ---- the grid of structures (update_state) ----

  /** update_state's loop over the first k units of one list: structures write offset + id at their cell. */
  function PaintPrefix(gv: Plane, us: seq<Unit>, k: nat, offset: int): Plane
    requires k <= |us|
  {
    if k == 0 then gv
    else
      var p := PaintPrefix(gv, us, k - 1, offset);
      if IsMobile(us[k - 1].id) then p else p[us[k - 1].pos := offset + us[k - 1].id]
  }

  /** The index of the last structure among the first k units that stands on c. */
  function LastAt(us: seq<Unit>, k: nat, c: Cell): (r: Option<nat>)
    requires k <= |us|
    ensures r.Some? ==> r.value < k && !IsMobile(us[r.value].id) && us[r.value].pos == c
    ensures r.Some? ==> forall i :: r.value < i < k ==> IsMobile(us[i].id) || us[i].pos != c
    ensures r.None? <==> forall i :: 0 <= i < k ==> IsMobile(us[i].id) || us[i].pos != c
  {
    if k == 0 then None
    else if !IsMobile(us[k - 1].id) && us[k - 1].pos == c then Some(k - 1)
    else LastAt(us, k - 1, c)
  }

  /** Every cell painted by the loop holds the value of the last structure on it, or its old value. */
  lemma {:induction false} PaintPrefixCell(gv: Plane, us: seq<Unit>, k: nat, offset: int, c: Cell)
    requires k <= |us| && c in gv
    ensures c in PaintPrefix(gv, us, k, offset)
    ensures PaintPrefix(gv, us, k, offset)[c] ==
      match LastAt(us, k, c)
      case None => gv[c]
      case Some(i) => offset + us[i].id
  {
    if k > 0 {
      PaintPrefixCell(gv, us, k - 1, offset, c);
    }
  }

  /** The structures of a list stand inside the padded grid. */
  predicate StructuresInBox(us: seq<Unit>)
  {
    forall i :: 0 <= i < |us| && !IsMobile(us[i].id) ==> InBox(us[i].pos.0, us[i].pos.1)
  }

  /** Painting structures that stand inside the grid keeps a plane a plane. */
  lemma {:induction false} PaintPrefixPlane(gv: Plane, us: seq<Unit>, k: nat, offset: int)
    requires k <= |us| && IsPlane(gv) && StructuresInBox(us)
    ensures IsPlane(PaintPrefix(gv, us, k, offset))
  {
    if k > 0 {
      PaintPrefixPlane(gv, us, k - 1, offset);
    }
  }

  /** The grid update_state builds from the template: friendly structures first, then enemy ones at 6 + id. */
  function Painted(tv: Plane, sUnits: seq<Unit>, aUnits: seq<Unit>): Plane
  {
    PaintPrefix(PaintPrefix(tv, sUnits, |sUnits|, 0), aUnits, |aUnits|, 6)
  }

  /**
   * Each cell of the painted grid holds 6 + id of the last enemy structure
   * on it, else the id of the last friendly structure on it, else the
   * template value: mobile units never block.
   */
  lemma PaintedCell(tv: Plane, sUnits: seq<Unit>, aUnits: seq<Unit>, c: Cell)
    requires c in tv
    ensures c in Painted(tv, sUnits, aUnits)
    ensures Painted(tv, sUnits, aUnits)[c] ==
      match LastAt(aUnits, |aUnits|, c)
      case Some(i) => 6 + aUnits[i].id
      case None =>
        match LastAt(sUnits, |sUnits|, c)
        case Some(i) => sUnits[i].id
        case None => tv[c]
  {
    PaintPrefixCell(tv, sUnits, |sUnits|, 0, c);
    PaintPrefixCell(PaintPrefix(tv, sUnits, |sUnits|, 0), aUnits, |aUnits|, 6, c);
  }

  /** The painted grid is still a grid whose free cells are playable; a structure's cell is never free. */
  lemma PaintedGridOk(tv: Plane, sUnits: seq<Unit>, aUnits: seq<Unit>)
    requires GridOk(tv) && StructuresInBox(sUnits) && StructuresInBox(aUnits)
    ensures GridOk(Painted(tv, sUnits, aUnits))
    ensures forall i :: 0 <= i < |sUnits| && !IsMobile(sUnits[i].id) ==> Painted(tv, sUnits, aUnits)[sUnits[i].pos] != 0
    ensures forall i :: 0 <= i < |aUnits| && !IsMobile(aUnits[i].id) ==> Painted(tv, sUnits, aUnits)[aUnits[i].pos] != 0
  {
    var pv := Painted(tv, sUnits, aUnits);
    PaintPrefixPlane(tv, sUnits, |sUnits|, 0);
    PaintPrefixPlane(PaintPrefix(tv, sUnits, |sUnits|, 0), aUnits, |aUnits|, 6);
    forall c | c in pv && pv[c] == 0
      ensures Playable(c.0, c.1)
    {
      PaintedCell(tv, sUnits, aUnits, c);
    }
    forall i | 0 <= i < |sUnits| && !IsMobile(sUnits[i].id)
      ensures pv[sUnits[i].pos] != 0
    {
      PaintedCell(tv, sUnits, aUnits, sUnits[i].pos);
    }
    forall i | 0 <= i < |aUnits| && !IsMobile(aUnits[i].id)
      ensures pv[aUnits[i].pos] != 0
    {
      PaintedCell(tv, sUnits, aUnits, aUnits[i].pos);
    }
  }

  /** One loop of update_state: write offset + id at the cell of every structure of the list, in order. */
  method PaintUnits(g: array2<int>, us: seq<Unit>, offset: int)
    requires Dims(g) && StructuresInBox(us)
    modifies g
    ensures View(g) == PaintPrefix(old(View(g)), us, |us|, offset)
  {
    ghost var start := View(g);
    for i := 0 to |us|
      invariant View(g) == PaintPrefix(start, us, i, offset)
    {
      PaintOne(g, us, i, offset, start);
    }
  }

  /** One iteration of the loop: unit i paints its cell if it is a structure. */
  method PaintOne(g: array2<int>, us: seq<Unit>, i: nat, offset: int, ghost start: Plane)
    requires Dims(g) && StructuresInBox(us) && i < |us|
    requires View(g) == PaintPrefix(start, us, i, offset)
    modifies g
    ensures View(g) == PaintPrefix(start, us, i + 1, offset)
  {
    if us[i].id > 3 {
      SetCell(g, us[i].pos, offset + us[i].id);
    }
  }

  /** What the seeding loop has established after the first k border cells. */
  ghost predicate Seeded(gv: Plane, p: Plane, nodes: seq<Cell>, k: nat, q: seq<Cell>, seeds: set<Cell>)
    requires k <= |nodes|
  {
    && IsPlane(p)
    && (forall c :: c in seeds <==> c in nodes[..k] && c in gv && gv[c] == 0)
    && (forall c :: c in seeds <==> c in q)
    && (forall m :: 0 <= m < |q| ==> Free(gv, p, q[m]))
    && (forall k1, k2 :: 0 <= k1 < k2 < |q| ==> q[k1] != q[k2])
    && (forall c :: c in p ==> p[c] == (if c in seeds then 0 else DTemplateValue(c.0, c.1)))
  }

  /** The seeding loop of get_dijkstra for a border: every unoccupied border cell gets 0 and is queued. */
  method SeedBorder(g: array2<int>, d: array2<int>, nodes: seq<Cell>) returns (q: seq<Cell>, ghost seeds: set<Cell>)
    requires Dims(g) && Dims(d) && g != d
    requires forall c :: c in View(d) ==> View(d)[c] == DTemplateValue(c.0, c.1)
    requires forall k :: 0 <= k < |nodes| ==> Playable(nodes[k].0, nodes[k].1)
    requires forall k1, k2 :: 0 <= k1 < k2 < |nodes| ==> nodes[k1] != nodes[k2]
    modifies d
    ensures forall c :: c in seeds <==> c in nodes && c in View(g) && View(g)[c] == 0
    ensures forall c :: c in seeds <==> c in q
    ensures forall k :: 0 <= k < |q| ==> Free(View(g), View(d), q[k])
    ensures forall k1, k2 :: 0 <= k1 < k2 < |q| ==> q[k1] != q[k2]
    ensures forall c :: c in View(d) ==> View(d)[c] == (if c in seeds then 0 else DTemplateValue(c.0, c.1))
  {
    q, seeds := [], {};
    for k := 0 to |nodes|
      invariant Seeded(View(g), View(d), nodes, k, q, seeds)
    {
      assert nodes[k] !in nodes[..k];
      q, seeds := SeedOne(g, d, nodes, k, q, seeds);
    }
    assert nodes[..|nodes|] == nodes;
  }

  /** One iteration of the seeding loop: border cell k gets 0 and is queued unless a structure stands on it. */
  method SeedOne(g: array2<int>, d: array2<int>, nodes: seq<Cell>, k: nat, q: seq<Cell>, ghost seeds: set<Cell>)
    returns (q': seq<Cell>, ghost seeds': set<Cell>)
    requires Dims(g) && Dims(d) && g != d && k < |nodes|
    requires Playable(nodes[k].0, nodes[k].1) && nodes[k] !in nodes[..k]
    requires Seeded(View(g), View(d), nodes, k, q, seeds)
    modifies d
    ensures Seeded(View(g), View(d), nodes, k + 1, q', seeds')
  {
    var n := nodes[k];
    PlayableInBox(n);
    SeededStep(View(g), View(d), nodes, k, q, seeds);
    q', seeds' := q, seeds;
    if g[n.0, n.1] == 0 {
      SetCell(d, n, 0);
      q', seeds' := q + [n], seeds + {n};
    }
  }

  /** The loop state after border cell k, as values. */
  lemma SeededStep(gv: Plane, p: Plane, nodes: seq<Cell>, k: nat, q: seq<Cell>, seeds: set<Cell>)
    requires k < |nodes| && IsPlane(gv) && InBox(nodes[k].0, nodes[k].1) && nodes[k] !in nodes[..k]
    requires Seeded(gv, p, nodes, k, q, seeds)
    ensures var n := nodes[k];
      if gv[n] != 0 then Seeded(gv, p, nodes, k + 1, q, seeds)
      else Seeded(gv, p[n := 0], nodes, k + 1, q + [n], seeds + {n})
  {
    assert nodes[..k + 1] == nodes[..k] + [nodes[k]];
  }

  /** Once the scan has failed, the rest of the scan fails the same way. */
  lemma {:induction false} ScanErrorPersists(vals: seq<Option<int>>, i: nat, k: nat)
    requires i <= k <= |vals| && ScanPrefix(vals, i).Err?
    ensures ScanPrefix(vals, k) == ScanPrefix(vals, i)
    decreases k
  {
    if k > i {
      ScanErrorPersists(vals, i, k - 1);
    }
  }

  lemma MoveDeltaStaysInBox(pos: Cell, i: int)
    requires Playable(pos.0, pos.1) && 0 <= i < 4
    ensures InBox(pos.0 + MoveDelta(i).0, pos.1 + MoveDelta(i).1)
  {
    PlayableNeighboursInBox(pos.0, pos.1);
  }

  /** Open, read straight from the arrays. */
  function OpenIn(g: array2<int>, dmap: array2<int>, c: Cell): Option<int>
    requires Dims(g) && Dims(dmap)
    reads g, dmap
  {
    if InBox(c.0, c.1) && g[c.0, c.1] == 0 then Some(dmap[c.0, c.1]) else None
  }

  /** NeighbourValues, read straight from the arrays. */
  function NeighbourValuesIn(g: array2<int>, dmap: array2<int>, pos: Cell): (vals: seq<Option<int>>)
    requires Dims(g) && Dims(dmap)
    reads g, dmap
    ensures |vals| == 4
    ensures forall i :: 0 <= i < 4 ==> vals[i] == OpenIn(g, dmap, Step(pos, MoveDelta(i)))
  {
    [OpenIn(g, dmap, Step(pos, MoveDelta(0))), OpenIn(g, dmap, Step(pos, MoveDelta(1))),
     OpenIn(g, dmap, Step(pos, MoveDelta(2))), OpenIn(g, dmap, Step(pos, MoveDelta(3)))]
  }

  lemma NeighbourValuesInView(g: array2<int>, dmap: array2<int>, pos: Cell)
    requires Dims(g) && Dims(dmap)
    ensures NeighbourValuesIn(g, dmap, pos) == NeighbourValues(View(g), View(dmap), pos)
  {
  }

  /** The neighbour loop of get_direction: possible_deltas, or the UnboundLocalError. */
  method ScanNeighbours(g: array2<int>, dmap: array2<int>, pos: Cell) returns (r: Result<seq<Delta>>)
    requires Dims(g) && Dims(dmap) && Playable(pos.0, pos.1)
    ensures r == Candidates(NeighbourValuesIn(g, dmap, pos))
  {
    var cx, cy := pos.0, pos.1;
    ghost var vals := NeighbourValuesIn(g, dmap, pos);
    var mindist, possible := INTMAX, None;
    for i := 0 to 4
      invariant ScanPrefix(vals, i) == Ok(Scan(mindist, possible))
    {
      var delta := MoveDelta(i);
      var nx, ny := cx + delta.0, cy + delta.1;
      MoveDeltaStaysInBox(pos, i);
      assert vals[i] == OpenIn(g, dmap, (nx, ny));
      if g[nx, ny] != 0 {
        continue;
      }
      if dmap[nx, ny] < mindist {
        possible := Some([delta]);
        mindist := dmap[nx, ny];
      } else if dmap[nx, ny] == mindist {
        if possible.None? {
          ScanErrorPersists(vals, i + 1, 4);
          return Err(UnboundDeltas);
        }
        possible := Some(possible.value + [delta]);
      }
    }
    if possible.None? {
      return Err(UnboundDeltas);
    }
    r := Ok(possible.value);
  }

  /** The tie-breaking rules of get_direction, with its loop over PREFERED_LOC. */
  method BreakTie(possible: seq<Delta>, prev: Option<Delta>, target: int) returns (r: Result<Delta>)
    ensures r == TieBreak(possible, prev, target)
  {
    if |possible| == 1 {
      return Ok(possible[0]);
    }
    if prev.None? {
      var vs := Vertical(possible);
      if |vs| != 1 {
        return Err(VerticalAssertion);
      }
      return Ok(vs[0]);
    }
    var pd := OtherAxis(possible, Abs(prev.value.0));
    if |pd| == 1 {
      return Ok(pd[0]);
    }
    var prefs := PreferredLoc(target);
    for k := 0 to |prefs|
      invariant FirstPreferred(prefs, pd) == FirstPreferred(prefs[k..], pd)
    {
      assert prefs[k..][1..] == prefs[k + 1..];
      if prefs[k] in pd {
        return Ok(prefs[k]);
      }
    }
    return Err(GiveUp);
  }

  /** Once a turn has failed, the remaining turns are not taken. */
  lemma {:induction false} ErrorStopsMoves(gv: Plane, maps: map<int, Plane>, us: seq<Unit>, i: nat, k: nat)
    requires i <= k <= |us| && AllPlaced(us) && MapsOk(maps) && MoveAll(gv, maps, us, i).Err?
    ensures MoveAll(gv, maps, us, k) == MoveAll(gv, maps, us, i)
    decreases k
  {
    if k > i {
      ErrorStopsMoves(gv, maps, us, i, k - 1);
    }
  }

  /** One more turn of the loop of MoveAll. */
  lemma MoveAllStep(gv: Plane, maps: map<int, Plane>, us: seq<Unit>, i: nat,
                    moved: seq<Unit>, events: seq<Cell>, m: Moved)
    requires i < |us| && AllPlaced(us) && MapsOk(maps)
    requires MoveAll(gv, maps, us, i) == Ok((moved, events)) && MoveOne(gv, maps, us[i]) == Ok(m)
    ensures MoveAll(gv, maps, us, i + 1) == Ok((moved + [m.unit], events + if m.scored then [us[i].pos] else []))
  {
  }

  /** Structures stay where they stand, so a side's moves keep them inside the grid. */
  lemma MoveAllKeepsStructures(gv: Plane, maps: map<int, Plane>, us: seq<Unit>)
    requires AllPlaced(us) && MapsOk(maps) && GridOk(gv) && StructuresInBox(us)
    requires MoveAll(gv, maps, us, |us|).Ok?
    ensures StructuresInBox(MoveAll(gv, maps, us, |us|).value.0)
  {
    MoveAllMeaning(gv, maps, us, |us|);
    var moved := MoveAll(gv, maps, us, |us|).value.0;
    forall i | 0 <= i < |moved| && !IsMobile(moved[i].id)
      ensures InBox(moved[i].pos.0, moved[i].pos.1)
    {
      assert moved[i].id == us[i].id;
    }
  }

  /** The counters and lists after both sides have moved, when neither side's moves raise. */
  datatype Turn = Turn(sUnits: seq<Unit>, aUnits: seq<Unit>, sHealth: int, aHealth: int)

  /**
   * The second half of __call__: friendly units move and each of their
   * scores costs the enemy one health point, then the enemy units move on
   * the same grid and distance maps and each of their scores costs the
   * friendly side one point.
   */
  function Play(gv: Plane, maps: map<int, Plane>, s: seq<Unit>, a: seq<Unit>, sHealth: int, aHealth: int): Result<Turn>
    requires AllPlaced(s) && AllPlaced(a) && MapsOk(maps)
  {
    match MoveAll(gv, maps, s, |s|)
    case Err(e) => Err(e)
    case Ok((s1, sEvents)) =>
      match MoveAll(gv, maps, a, |a|)
      case Err(e) => Err(e)
      case Ok((a1, aEvents)) => Ok(Turn(s1, a1, sHealth - |aEvents|, aHealth - |sEvents|))
  }

  /**
   * A turn that completes leaves both lists the same length and well
   * placed, with structures inside the grid (so the next turn may be
   * played), and takes from each side at most one point per opposing unit.
   */
  lemma PlayKeepsPlacement(gv: Plane, maps: map<int, Plane>, s: seq<Unit>, a: seq<Unit>, sHealth: int, aHealth: int)
    requires AllPlaced(s) && AllPlaced(a) && MapsOk(maps) && GridOk(gv)
    requires StructuresInBox(s) && StructuresInBox(a)
    requires Play(gv, maps, s, a, sHealth, aHealth).Ok?
    ensures var t := Play(gv, maps, s, a, sHealth, aHealth).value;
      && |t.sUnits| == |s| && |t.aUnits| == |a|
      && AllPlaced(t.sUnits) && AllPlaced(t.aUnits)
      && StructuresInBox(t.sUnits) && StructuresInBox(t.aUnits)
      && sHealth - |a| <= t.sHealth <= sHealth
      && aHealth - |s| <= t.aHealth <= aHealth
  {
    MoveAllMeaning(gv, maps, s, |s|);
    MoveAllMeaning(gv, maps, a, |a|);
    MoveAllKeepsStructures(gv, maps, s);
    MoveAllKeepsStructures(gv, maps, a);
    ScoreCountBound(seq(|s|, i requires 0 <= i < |s| => MoveOne(gv, maps, s[i]).value));
    ScoreCountBound(seq(|a|, i requires 0 <= i < |a| => MoveOne(gv, maps, a[i]).value));
  }

  /** One health point lost per scoring event. */
  method LoseHealth(state: GameState, events: seq<Cell>, friendly: bool)
    modifies state
    ensures friendly ==> state.sHealth == old(state.sHealth) - |events| && state.aHealth == old(state.aHealth)
    ensures !friendly ==> state.aHealth == old(state.aHealth) - |events| && state.sHealth == old(state.sHealth)
    ensures state.sCore == old(state.sCore) && state.aCore == old(state.aCore)
    ensures state.sBits == old(state.sBits) && state.aBits == old(state.aBits)
    ensures state.sUnits == old(state.sUnits) && state.aUnits == old(state.aUnits)
  {
    for k := 0 to |events|
      invariant friendly ==> state.sHealth == old(state.sHealth) - k && state.aHealth == old(state.aHealth)
      invariant !friendly ==> state.aHealth == old(state.aHealth) - k && state.sHealth == old(state.sHealth)
      invariant state.sCore == old(state.sCore) && state.aCore == old(state.aCore)
      invariant state.sBits == old(state.sBits) && state.aBits == old(state.aBits)
      invariant state.sUnits == old(state.sUnits) && state.aUnits == old(state.aUnits)
    {
      if friendly {
        state.sHealth := state.sHealth - 1;
      } else {
        state.aHealth := state.aHealth - 1;
      }
    }
  }

  lemma TemplateGridOk(g: array2<int>)
    requires IsGridTemplate(g)
    ensures GridOk(View(g))
  {
  }

  // ---- the object ----

  class MapGraph {
    const gridTemplate: array2<int>
    const dTemplate: array2<int>
    var grid: array2<int>
    var distanceMaps: map<int, array2<int>>

    ghost predicate Valid()
      reads this, gridTemplate, dTemplate, grid
    {
      && IsGridTemplate(gridTemplate) && IsDTemplate(dTemplate) && Dims(grid)
      && grid != gridTemplate && grid != dTemplate && gridTemplate != dTemplate
      && GridOk(View(grid))
      && (forall t :: t in distanceMaps ==> Dims(distanceMaps[t]) && distanceMaps[t] != grid)
    }

    /**
     * __init__ and _make_grid: the two templates, no distance maps yet, and
     * the grid of an empty board.
     */
    constructor ()
      ensures Valid() && fresh(grid)
      ensures distanceMaps == map[]
      ensures View(grid) == View(gridTemplate)
    {
      var gt, dt := MakeGrid();
      gridTemplate, dTemplate := gt, dt;
      new;
      TemplateGridOk(gridTemplate);
      grid := CopyPlane(gridTemplate);
      distanceMaps := map[];
    }
 
    /** update_state: a fresh copy of the template with every structure of both lists written in. */
    method UpdateState(state: GameState)
      requires Valid() && StructuresInBox(state.sUnits) && StructuresInBox(state.aUnits)
      modifies this
      ensures Valid() && fresh(grid)
      ensures View(grid) == Painted(View(gridTemplate), state.sUnits, state.aUnits)
      ensures distanceMaps == old(distanceMaps)
    {
      ghost var tv := View(gridTemplate);
      var g := CopyPlane(gridTemplate);
      PaintUnits(g, state.sUnits, 0);
      PaintUnits(g, state.aUnits, 6);
      grid := g;
      PaintedGridOk(tv, state.sUnits, state.aUnits);
    }
 
    /**
     * get_dijkstra: seed a copy of the distance template, then flood it.
     * A bad border id and an occupied custom cell raise; otherwise the
     * result is a fresh array holding the distance field of the current
     * grid from the seeds.
     */
    method GetDijkstra(src: Source) returns (r: Result<array2<int>>)
      requires Valid() && (src.Target? ==> InBox(src.cell.0, src.cell.1))
      ensures r.Err? <==> SourceError(View(grid), src).Some?
      ensures r.Err? ==> r.error == SourceError(View(grid), src).value
      ensures r.Ok? ==> fresh(r.value) && IsField(grid, r.value, Seeds(View(grid), src))
    {
      ghost var gv := View(grid);
      var d := CopyPlane(dTemplate);
      var q: seq<Cell>;
      ghost var seeds: set<Cell>;
      match src {
        case Border(id) =>
          var nodes := FrontierNodes(id);
          if nodes.Err? {
            return Err(WrongBorderId);
          }
          q, seeds := SeedBorder(grid, d, nodes.value);
          assert seeds == Seeds(gv, src);
        case Target(c) =>
          if grid[c.0, c.1] != 0 {
            return Err(OccupiedTarget);
          }
          assert Playable(c.0, c.1);
          SetCell(d, c, 0);
          q, seeds := [c], {c};
      }
      SeededIsBfsStart(gv, View(d), q, seeds);
      Expand(grid, d, q, seeds, seeds);
      r := Ok(d);
    }
 
    /** The four border maps exist: recompute_distance_maps has run. */
    predicate MapsReady()
      reads this
    {
      forall t :: 2 <= t <= 5 ==> t in distanceMaps
    }

    /** The values of the distance maps. */
    ghost function MapsView(): (m: map<int, Plane>)
      requires Valid()
      reads this, gridTemplate, dTemplate, grid, distanceMaps.Values
      ensures m.Keys == distanceMaps.Keys
      ensures forall t :: t in m ==> m[t] == View(distanceMaps[t])
    {
      map t | t in distanceMaps :: View(distanceMaps[t])
    }

    /**
     * get_direction for a mobile unit: the offset of its next step on the
     * current grid and the distance map of its target (the caller stores it
     * as previous_move and adds it to pos).
     */
    method GetDirection(u: Unit) returns (r: Result<Delta>)
      requires Valid() && WellPlaced(u) && IsMobile(u.id) && u.target.value in distanceMaps
      ensures r == Direction(View(grid), View(distanceMaps[u.target.value]), u.pos, u.previousMove, u.target.value)
    {
      var t := u.target.value;
      var dmap := distanceMaps[t];
      var cx, cy := u.pos.0, u.pos.1;
      PlayableNeighboursInBox(cx, cy);
      if dmap[cx, cy] == INTMAX {
        // find_deepest_position's walk calls q.not_empty(), which is not callable
        return Err(ReachabilityWalk);
      }
      var possible := ScanNeighbours(grid, dmap, u.pos);
      NeighbourValuesInView(grid, dmap, u.pos);
      if possible.Err? {
        return Err(possible.error);
      }
      r := BreakTie(possible.value, u.previousMove, t);
    }
 
    /** _move_one on a unit value: the unit after its turn and whether it scored. */
    method MoveOne(u: Unit, ghost gv: Plane, ghost maps: map<int, Plane>) returns (r: Result<Moved>)
      requires Valid() && WellPlaced(u) && MapsReady()
      requires gv == View(grid) && maps == MapsView()
      ensures MapsOk(maps) && r == Movement.MoveOne(gv, maps, u)
    {
      if u.id > 3 {
        return Ok(Moved(u, false));
      }
      var count := u.nTurnsStatic + 1;
      if count < u.speed {
        return Ok(Moved(u.(nTurnsStatic := count), false));
      }
      var dmat := distanceMaps[u.target.value];
      if dmat[u.pos.0, u.pos.1] == 0 {
        return Ok(Moved(u.(nTurnsStatic := 0, stability := 0), true));
      }
      var delta := GetDirection(u);
      if delta.Err? {
        return Err(delta.error);
      }
      r := Ok(Moved(u.(nTurnsStatic := 0, pos := Step(u.pos, delta.value), previousMove := Some(delta.value)), false));
    }

    /** One loop of __call__: every unit of the list takes its turn, and the 'score' events are collected. */
    method MoveUnits(us: seq<Unit>, ghost gv: Plane, ghost maps: map<int, Plane>) returns (r: Result<(seq<Unit>, seq<Cell>)>)
      requires Valid() && AllPlaced(us) && MapsReady()
      requires gv == View(grid) && maps == MapsView()
      ensures MapsOk(maps) && r == MoveAll(gv, maps, us, |us|)
    {
      assert MapsOk(maps);
      r := Ok(([], []));
      for i := 0 to |us|
        invariant MapsOk(maps) && r.Ok? && r == MoveAll(gv, maps, us, i)
      {
        r := MoveNext(us, i, r.value.0, r.value.1, gv, maps);
        if r.Err? {
          ErrorStopsMoves(gv, maps, us, i + 1, |us|);
          return;
        }
      }
    }

    /** One iteration of that loop: unit i takes its turn; a 'score' event is recorded at its position. */
    method MoveNext(us: seq<Unit>, i: nat, moved: seq<Unit>, events: seq<Cell>, ghost gv: Plane, ghost maps: map<int, Plane>)
      returns (r: Result<(seq<Unit>, seq<Cell>)>)
      requires Valid() && AllPlaced(us) && MapsReady() && i < |us|
      requires gv == View(grid) && maps == MapsView() && MapsOk(maps)
      requires MoveAll(gv, maps, us, i) == Ok((moved, events))
      ensures r == MoveAll(gv, maps, us, i + 1)
    {
      var m := MoveOne(us[i], gv, maps);
      if m.Err? {
        return Err(m.error);
      }
      MoveAllStep(gv, maps, us, i, moved, events, m.value);
      if m.value.scored {
        r := Ok((moved + [m.value.unit], events + [us[i].pos]));
      } else {
        assert events + [] == events;
        r := Ok((moved + [m.value.unit], events));
      }
    }

    /** get_dijkstra on one of the borders 2..5, which never raises. */
    method BorderField(t: int) returns (d: array2<int>)
      requires Valid() && 2 <= t <= 5
      ensures fresh(d) && Dims(d) && IsField(grid, d, Seeds(View(grid), Border(t)))
    {
      var r := GetDijkstra(Border(t));
      d := r.value;
    }

    /** The distance maps of the borders 2..k-1 are in place, each the field of the current grid. */
    ghost predicate FieldsUpTo(k: int)
      reads this, grid, distanceMaps.Values
    {
      && Dims(grid)
      && (forall t :: t in distanceMaps <==> 2 <= t < k)
      && (forall t :: t in distanceMaps ==> IsField(grid, distanceMaps[t], Seeds(View(grid), Border(t))))
    }

    /** One entry of the comprehension of recompute_distance_maps. */
    method AddBorderMap(t: int)
      requires Valid() && FieldsUpTo(t) && 2 <= t <= 5
      modifies this
      ensures Valid() && FieldsUpTo(t + 1) && grid == old(grid)
      ensures fresh(distanceMaps[t])
      ensures forall k :: k in old(distanceMaps) ==> distanceMaps[k] == old(distanceMaps[k])
    {
      var d := BorderField(t);
      distanceMaps := distanceMaps[t := d];
    }

    /** recompute_distance_maps: a fresh distance field of the current grid for each of the borders 2..5. */
    method RecomputeDistanceMaps()
      requires Valid()
      modifies this
      ensures Valid() && MapsReady() && FieldsUpTo(6) && grid == old(grid)
      ensures forall t :: t in distanceMaps ==> fresh(distanceMaps[t])
    {
      distanceMaps := map[];
      for t := 2 to 6
        invariant Valid() && FieldsUpTo(t) && grid == old(grid)
        invariant forall k :: k in distanceMaps ==> fresh(distanceMaps[k])
      {
        AddBorderMap(t);
      }
    }

    /** The moves of __call__ on the current grid and maps; changes only the game state. */
    method PlayMoves(state: GameState, ghost gv: Plane, ghost maps: map<int, Plane>) returns (r: Outcome)
      requires Valid() && MapsReady() && AllPlaced(state.sUnits) && AllPlaced(state.aUnits)
      requires gv == View(grid) && maps == MapsView()
      modifies state
      ensures state.sCore == old(state.sCore) && state.aCore == old(state.aCore)
      ensures state.sBits == old(state.sBits) && state.aBits == old(state.aBits)
      ensures MapsOk(maps)
      ensures var t := Play(gv, maps, old(state.sUnits), old(state.aUnits), old(state.sHealth), old(state.aHealth));
        && (r.Pass? <==> t.Ok?)
        && (r.Fail? ==> r.error == t.error)
        && (t.Ok? ==> t.value == Turn(state.sUnits, state.aUnits, state.sHealth, state.aHealth))
    {
      // Neither side's moves read the healths or the other list, so both are
      // computed before the state is written.
      var rs := MoveUnits(state.sUnits, gv, maps);
      if rs.Err? {
        return Fail(rs.error);
      }
      var ra := MoveUnits(state.aUnits, gv, maps);
      if ra.Err? {
        return Fail(ra.error);
      }
      var (sMoved, sEvents) := rs.value;
      var (aMoved, aEvents) := ra.value;
      state.sUnits := sMoved;
      LoseHealth(state, sEvents, false);
      state.aUnits := aMoved;
      LoseHealth(state, aEvents, true);
      r := Pass;
    }

    /**
     * __call__: repaint the grid, recompute the four distance maps, then
     * play both sides' moves on them. The outcome and the new counters and
     * lists are those of Play on the new grid and maps.
     */
    method Call(state: GameState) returns (r: Outcome)
      requires Valid() && AllPlaced(state.sUnits) && AllPlaced(state.aUnits)
      requires StructuresInBox(state.sUnits) && StructuresInBox(state.aUnits)
      modifies this, state
      ensures Valid() && MapsReady() && FieldsUpTo(6)
      ensures View(grid) == Painted(View(gridTemplate), old(state.sUnits), old(state.aUnits))
      ensures state.sCore == old(state.sCore) && state.aCore == old(state.aCore)
      ensures state.sBits == old(state.sBits) && state.aBits == old(state.aBits)
      ensures MapsOk(MapsView())
      ensures var t := Play(View(grid), MapsView(), old(state.sUnits), old(state.aUnits), old(state.sHealth), old(state.aHealth));
        && (r.Pass? <==> t.Ok?)
        && (r.Fail? ==> r.error == t.error)
        && (t.Ok? ==> t.value == Turn(state.sUnits, state.aUnits, state.sHealth, state.aHealth))
    {
      UpdateState(state);
      ghost var painted := View(grid);
      RecomputeDistanceMaps();
      assert View(grid) == painted;
      ghost var gv, maps := View(grid), MapsView();
      label moving:
      r := PlayMoves(state, gv, maps);
      assert unchanged@moving(this, grid, gridTemplate, dTemplate);
      assert forall t :: t in distanceMaps ==> unchanged@moving(distanceMaps[t]);
    }
  }
}
