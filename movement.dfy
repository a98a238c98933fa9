/**
 * The movement rules of tc1/mapgraph.py as values: the neighbour scan and
 * tie-breaking of get_direction, the turn of _move_one, and the choice of
 * find_deepest_position.
 */
module Movement {
  import opened Wrappers
  import opened State
  import opened Grid
  import opened Field

  /** Neighbour offsets in the order get_direction scans them. */
  function MoveDelta(i: int): Delta
  {
    if i == 0 then (1, 0) else if i == 1 then (-1, 0) else if i == 2 then (0, 1) else (0, -1)
  }

  function Step(c: Cell, delta: Delta): Cell
  {
    (c.0 + delta.0, c.1 + delta.1)
  }

  /** The scan variables: mindist, and possible_deltas once it has been assigned. */
  datatype Scan = Scan(mindist: int, possible: Option<seq<Delta>>)

  /**
   * One iteration of the scan over a neighbour whose distance is v (None
   * when the grid holds anything there): a smaller distance restarts the
   * list, an equal one is appended; appending before the list exists is
   * the UnboundLocalError.
   */
  function ScanStep(s: Scan, v: Option<int>, delta: Delta): Result<Scan>
  {
    match v
    case None => Ok(s)
    case Some(dist) =>
      if dist < s.mindist then Ok(Scan(dist, Some([delta])))
      else if dist == s.mindist then
        if s.possible.None? then Err(UnboundDeltas) else Ok(Scan(dist, Some(s.possible.value + [delta])))
      else Ok(s)
  }

  /** The scan after the first k neighbours, starting from mindist = INTMAX. */
  function ScanPrefix(vals: seq<Option<int>>, k: nat): Result<Scan>
    requires k <= |vals|
  {
    if k == 0 then Ok(Scan(INTMAX, None))
    else
      match ScanPrefix(vals, k - 1)
      case Err(e) => Err(e)
      case Ok(s) => ScanStep(s, vals[k - 1], MoveDelta(k - 1))
  }

  /** possible_deltas after the loop; reading it while unbound is the UnboundLocalError too. */
  function Candidates(vals: seq<Option<int>>): Result<seq<Delta>>
    requires |vals| == 4
  {
    match ScanPrefix(vals, 4)
    case Err(e) => Err(e)
    case Ok(s) => if s.possible.None? then Err(UnboundDeltas) else Ok(s.possible.value)
  }

  // ---- a reference description of the scan ----

  /** The distance of the first accessible neighbour among the first k. */
  function FirstOpen(vals: seq<Option<int>>, k: nat): (r: Option<int>)
    requires k <= |vals|
    ensures r.None? <==> forall i :: 0 <= i < k ==> vals[i].None?
    ensures r.Some? ==> exists i :: 0 <= i < k && vals[i] == r && forall i' :: 0 <= i' < i ==> vals[i'].None?
  {
    if k == 0 then None
    else if FirstOpen(vals, k - 1).Some? then FirstOpen(vals, k - 1)
    else vals[k - 1]
  }

  /** The smallest distance among the accessible neighbours of the first k (INTMAX + 1 if none). */
  function MinValue(vals: seq<Option<int>>, k: nat): (m: int)
    requires k <= |vals|
    ensures forall i :: 0 <= i < k && vals[i].Some? ==> m <= vals[i].value
    ensures (exists i :: 0 <= i < k && vals[i].Some?) ==> exists i :: 0 <= i < k && vals[i] == Some(m)
    ensures (forall i :: 0 <= i < k ==> vals[i].None?) ==> m == INTMAX + 1
  {
    if k == 0 then INTMAX + 1
    else
      var m := MinValue(vals, k - 1);
      if vals[k - 1].Some? && (FirstOpen(vals, k - 1).None? || vals[k - 1].value < m) then vals[k - 1].value else m
  }

  /** The offsets, in scan order, of the first k neighbours whose distance is m. */
  function AtValue(vals: seq<Option<int>>, m: int, k: nat): (r: seq<Delta>)
    requires k <= |vals| <= 4
    ensures forall delta :: delta in r <==> exists i :: 0 <= i < k && vals[i] == Some(m) && MoveDelta(i) == delta
    ensures |r| <= k
  {
    if k == 0 then []
    else if vals[k - 1] == Some(m) then AtValue(vals, m, k - 1) + [MoveDelta(k - 1)]
    else AtValue(vals, m, k - 1)
  }

  ghost predicate InRange(vals: seq<Option<int>>)
  {
    forall i :: 0 <= i < |vals| && vals[i].Some? ==> 0 <= vals[i].value <= INTMAX
  }

  /** No neighbour at distance v among the first k: no offsets. */
  lemma AtValueNone(vals: seq<Option<int>>, v: int, k: nat)
    requires k <= |vals| <= 4 && forall i :: 0 <= i < k ==> vals[i] != Some(v)
    ensures AtValue(vals, v, k) == []
  {
  }

  /**
   * The scan fails exactly when the first accessible neighbour is at
   * INTMAX; otherwise it holds the smallest distance and the offsets
   * reaching it, in scan order.
   */
  lemma {:induction false} ScanPrefixMeaning(vals: seq<Option<int>>, k: nat)
    requires k <= |vals| <= 4 && InRange(vals)
    ensures FirstOpen(vals, k).None? ==> ScanPrefix(vals, k) == Ok(Scan(INTMAX, None))
    ensures FirstOpen(vals, k) == Some(INTMAX) ==> ScanPrefix(vals, k) == Err(UnboundDeltas)
    ensures FirstOpen(vals, k).Some? && FirstOpen(vals, k).value < INTMAX ==>
      ScanPrefix(vals, k) == Ok(Scan(MinValue(vals, k), Some(AtValue(vals, MinValue(vals, k), k))))
  {
    if k > 0 {
      ScanPrefixMeaning(vals, k - 1);
      if FirstOpen(vals, k - 1).Some? && FirstOpen(vals, k - 1).value < INTMAX {
        ScanStepAfterOpen(vals, k);
      } else if FirstOpen(vals, k - 1).None? {
        ScanStepAfterNone(vals, k);
      }
    }
  }

  /** The step of the scan once a neighbour closer than INTMAX has been seen. */
  lemma ScanStepAfterOpen(vals: seq<Option<int>>, k: nat)
    requires 0 < k <= |vals| <= 4 && InRange(vals)
    requires FirstOpen(vals, k - 1).Some? && FirstOpen(vals, k - 1).value < INTMAX
    requires ScanPrefix(vals, k - 1) == Ok(Scan(MinValue(vals, k - 1), Some(AtValue(vals, MinValue(vals, k - 1), k - 1))))
    ensures FirstOpen(vals, k) == FirstOpen(vals, k - 1)
    ensures ScanPrefix(vals, k) == Ok(Scan(MinValue(vals, k), Some(AtValue(vals, MinValue(vals, k), k))))
  {
    var m := MinValue(vals, k - 1);
    assert m < INTMAX;
    if vals[k - 1].Some? && vals[k - 1].value == m {
      assert AtValue(vals, m, k) == AtValue(vals, m, k - 1) + [MoveDelta(k - 1)];
    } else if vals[k - 1].Some? && vals[k - 1].value < m {
      var v := vals[k - 1].value;
      AtValueNone(vals, v, k - 1);
      assert MinValue(vals, k) == v;
      assert AtValue(vals, v, k) == [MoveDelta(k - 1)];
    } else {
      assert MinValue(vals, k) == m;
      assert AtValue(vals, m, k) == AtValue(vals, m, k - 1);
    }
  }

  /** The step of the scan while every earlier neighbour was blocked. */
  lemma ScanStepAfterNone(vals: seq<Option<int>>, k: nat)
    requires 0 < k <= |vals| <= 4 && InRange(vals)
    requires FirstOpen(vals, k - 1).None? && ScanPrefix(vals, k - 1) == Ok(Scan(INTMAX, None))
    ensures FirstOpen(vals, k) == vals[k - 1]
    ensures vals[k - 1].None? ==> ScanPrefix(vals, k) == Ok(Scan(INTMAX, None))
    ensures vals[k - 1] == Some(INTMAX) ==> ScanPrefix(vals, k) == Err(UnboundDeltas)
    ensures vals[k - 1].Some? && vals[k - 1].value < INTMAX ==>
      ScanPrefix(vals, k) == Ok(Scan(MinValue(vals, k), Some(AtValue(vals, MinValue(vals, k), k))))
  {
    if vals[k - 1].Some? && vals[k - 1].value < INTMAX {
      var v := vals[k - 1].value;
      AtValueNone(vals, v, k - 1);
      assert MinValue(vals, k) == v;
      assert AtValue(vals, v, k) == [MoveDelta(k - 1)];
    }
  }

  /**
   * get_direction's candidate list: defined exactly when the first
   * accessible neighbour is closer than INTMAX, and then the non-empty list,
   * in scan order, of the offsets to the accessible neighbours at the
   * smallest distance.
   */
  lemma CandidatesAreClosest(vals: seq<Option<int>>)
    requires |vals| == 4 && InRange(vals)
    ensures Candidates(vals).Ok? <==> FirstOpen(vals, 4).Some? && FirstOpen(vals, 4).value < INTMAX
    ensures Candidates(vals).Err? ==> Candidates(vals).error == UnboundDeltas
    ensures Candidates(vals).Ok? ==>
      && MinValue(vals, 4) < INTMAX
      && Candidates(vals).value == AtValue(vals, MinValue(vals, 4), 4)
      && |Candidates(vals).value| >= 1
  {
    ScanPrefixMeaning(vals, 4);
    if FirstOpen(vals, 4).Some? && FirstOpen(vals, 4).value < INTMAX {
      var i :| 0 <= i < 4 && vals[i] == Some(MinValue(vals, 4));
      assert MoveDelta(i) in AtValue(vals, MinValue(vals, 4), 4);
    }
  }

  // ---- tie-breaking between equally close neighbours ----

  /** vertical_deltas: the candidates that do not move in x. */
  function Vertical(ps: seq<Delta>): (r: seq<Delta>)
    ensures forall delta :: delta in r <==> delta in ps && delta.0 == 0
  {
    if ps == [] then []
    else (if ps[0].0 == 0 then [ps[0]] else []) + Vertical(ps[1..])
  }

  /** prefered_deltas: the candidates whose |dx| differs from that of the previous move. */
  function OtherAxis(ps: seq<Delta>, aodx: int): (r: seq<Delta>)
    ensures forall delta :: delta in r <==> delta in ps && Abs(delta.0) != aodx
  {
    if ps == [] then []
    else (if Abs(ps[0].0) != aodx then [ps[0]] else []) + OtherAxis(ps[1..], aodx)
  }

  /** PREFERED_LOC: the two offsets leading towards each target edge, in order of preference. */
  function PreferredLoc(target: int): seq<Delta>
  {
    match target
    case 2 => [(0, 1), (1, 0)]
    case 3 => [(0, 1), (-1, 0)]
    case 4 => [(0, -1), (-1, 0)]
    case _ => [(0, -1), (1, 0)]
  }

  /** The first offset of prefs that is among the candidates. */
  function FirstPreferred(prefs: seq<Delta>, ps: seq<Delta>): (r: Option<Delta>)
    ensures r.Some? ==> r.value in prefs && r.value in ps
    ensures r.None? <==> forall delta :: delta in prefs ==> delta !in ps
    ensures r.Some? && |prefs| > 0 && prefs[0] in ps ==> r.value == prefs[0]
  {
    if prefs == [] then None
    else if prefs[0] in ps then Some(prefs[0])
    else FirstPreferred(prefs[1..], ps)
  }

  /**
   * The rules after the scan: a single candidate is taken; a unit that has
   * never moved takes the only vertical one (the assertion); otherwise the
   * only candidate on the other axis than its previous move, else the
   * preferred offset for its target among those, else it gives up.
   */
  function TieBreak(possible: seq<Delta>, prev: Option<Delta>, target: int): Result<Delta>
  {
    if |possible| == 1 then Ok(possible[0])
    else if prev.None? then
      var vs := Vertical(possible);
      if |vs| == 1 then Ok(vs[0]) else Err(VerticalAssertion)
    else
      var pd := OtherAxis(possible, Abs(prev.value.0));
      if |pd| == 1 then Ok(pd[0])
      else match FirstPreferred(PreferredLoc(target), pd)
        case Some(delta) => Ok(delta)
        case None => Err(GiveUp)
  }

  /**
   * The chosen offset is always a candidate: the only one, the only
   * vertical one for a fresh unit, otherwise the only one on the other axis
   * than the previous move or, failing that, the first preferred location
   * of the target among those; and the two ways to fail are exactly the
   * assertion and the give-up of the source.
   */
  lemma TieBreakChoosesCandidate(possible: seq<Delta>, prev: Option<Delta>, target: int)
    requires |possible| >= 1
    ensures var r := TieBreak(possible, prev, target);
      && (r.Ok? ==> r.value in possible)
      && (|possible| == 1 ==> r == Ok(possible[0]))
      && (|possible| > 1 && prev.None? ==>
            (r.Ok? <==> |Vertical(possible)| == 1) && (r.Ok? ==> r.value.0 == 0)
            && (r.Err? ==> r.error == VerticalAssertion))
      && (|possible| > 1 && prev.Some? ==>
            (r.Ok? ==> Abs(r.value.0) != Abs(prev.value.0))
            && (r.Err? <==>
                  (|OtherAxis(possible, Abs(prev.value.0))| != 1
                   && forall delta :: delta in PreferredLoc(target) ==> delta !in OtherAxis(possible, Abs(prev.value.0))))
            && (r.Err? ==> r.error == GiveUp)
            && (|OtherAxis(possible, Abs(prev.value.0))| == 1 ==> r == Ok(OtherAxis(possible, Abs(prev.value.0))[0]))
            && (r.Ok? && |OtherAxis(possible, Abs(prev.value.0))| != 1 ==>
                  r.value in PreferredLoc(target)
                  && FirstPreferred(PreferredLoc(target), OtherAxis(possible, Abs(prev.value.0))) == Some(r.value)))
  {
    if |possible| > 1 {
      if prev.None? {
        var vs := Vertical(possible);
        if |vs| == 1 { assert vs[0] in vs; }
      } else {
        var pd := OtherAxis(possible, Abs(prev.value.0));
        if |pd| == 1 { assert pd[0] in pd; }
      }
    }
  }

  /** The part of TieBreakChoosesCandidate the descent argument needs. */
  lemma TieBreakPicksCandidate(possible: seq<Delta>, prev: Option<Delta>, target: int)
    requires |possible| >= 1
    ensures TieBreak(possible, prev, target).Ok? ==> TieBreak(possible, prev, target).value in possible
    ensures TieBreak(possible, prev, target).Err? ==>
      TieBreak(possible, prev, target).error == VerticalAssertion || TieBreak(possible, prev, target).error == GiveUp
  {
    TieBreakChoosesCandidate(possible, prev, target);
  }

  // ---- get_direction on a distance field ----

  /** The distance get_direction reads at cell n: None where the grid holds anything. */
  function Open(gv: Plane, dv: Plane, n: Cell): Option<int>
  {
    if Free(gv, dv, n) then Some(dv[n]) else None
  }

  function NeighbourValues(gv: Plane, dv: Plane, pos: Cell): seq<Option<int>>
  {
    [Open(gv, dv, Step(pos, MoveDelta(0))), Open(gv, dv, Step(pos, MoveDelta(1))),
     Open(gv, dv, Step(pos, MoveDelta(2))), Open(gv, dv, Step(pos, MoveDelta(3)))]
  }

  lemma NeighbourValuesAt(gv: Plane, dv: Plane, pos: Cell, i: int)
    requires 0 <= i < 4
    ensures NeighbourValues(gv, dv, pos)[i] == Open(gv, dv, Step(pos, MoveDelta(i)))
  {
    if i == 0 {
    } else if i == 1 {
    } else if i == 2 {
    } else {
    }
  }

  /**
   * get_direction for a unit at pos, on grid gv and the distance map dv of
   * its target: a unit that cannot reach its target goes to look for the
   * deepest reachable cell, whose search fails as written (see
   * find_deepest_position); otherwise scan the neighbours and break ties.
   */
  function Direction(gv: Plane, dv: Plane, pos: Cell, prev: Option<Delta>, target: int): Result<Delta>
    requires pos in dv
  {
    if dv[pos] == INTMAX then Err(ReachabilityWalk)
    else
      match Candidates(NeighbourValues(gv, dv, pos))
      case Err(e) => Err(e)
      case Ok(ps) => TieBreak(ps, prev, target)
  }

  /** The offsets of get_direction are those of get_dijkstra, in another order. */
  lemma MoveDeltaIsNb(pos: Cell, i: int)
    requires 0 <= i < 4
    ensures Step(pos, MoveDelta(i)) == Nb(pos, if i == 0 then 1 else if i == 1 then 0 else if i == 2 then 3 else 2)
    ensures Adjacent(pos, Step(pos, MoveDelta(i)))
  {
  }

  /** A free neighbour of a reached cell is within one step of it, in both directions. */
  lemma NeighbourWithinOne(gv: Plane, dv: Plane, pos: Cell, n: Cell)
    requires Free(gv, dv, pos) && Free(gv, dv, n) && Adjacent(pos, n)
    requires dv[pos] < INTMAX && dv[n] <= INTMAX && Relaxed(gv, dv, pos) && Relaxed(gv, dv, n)
    ensures dv[pos] - 1 <= dv[n] <= dv[pos] + 1
  {
    StepBound(gv, dv, pos, n);
    if dv[n] < INTMAX {
      AdjacentSymmetric(pos, n);
      StepBound(gv, dv, n, pos);
    }
  }

  /** A lower bound that is attained is the minimum. */
  lemma MinValueIs(vals: seq<Option<int>>, low: int, w: int)
    requires |vals| == 4 && 0 <= w < 4 && vals[w] == Some(low)
    requires forall i :: 0 <= i < 4 && vals[i].Some? ==> low <= vals[i].value
    ensures MinValue(vals, 4) == low
  {
  }

  /** The distance read at a free neighbour of a reached cell is within one of the cell's. */
  ghost predicate NeighbourFacts(gv: Plane, dv: Plane, pos: Cell, i: int)
    requires pos in dv
  {
    var n := Step(pos, MoveDelta(i));
    Free(gv, dv, n) ==> 0 <= dv[n] <= INTMAX && Relaxed(gv, dv, n)
  }

  /** The lowest neighbour of a reached cell is exactly one step closer, and some neighbour is. */
  lemma NeighbourMinimum(gv: Plane, dv: Plane, pos: Cell)
    requires Free(gv, dv, pos) && 0 < dv[pos] < PLAYABLE_CELLS
    requires Relaxed(gv, dv, pos) && HasParent(gv, dv, pos)
    requires NeighbourFacts(gv, dv, pos, 0) && NeighbourFacts(gv, dv, pos, 1)
    requires NeighbourFacts(gv, dv, pos, 2) && NeighbourFacts(gv, dv, pos, 3)
    ensures InRange(NeighbourValues(gv, dv, pos))
    ensures MinValue(NeighbourValues(gv, dv, pos), 4) == dv[pos] - 1
    ensures FirstOpen(NeighbourValues(gv, dv, pos), 4).Some?
    ensures FirstOpen(NeighbourValues(gv, dv, pos), 4).value < INTMAX
  {
    var vals := NeighbourValues(gv, dv, pos);
    forall i | 0 <= i < 4 && vals[i].Some?
      ensures dv[pos] - 1 <= vals[i].value <= dv[pos] + 1
    {
      var n := Step(pos, MoveDelta(i));
      MoveDeltaIsNb(pos, i);
      assert NeighbourFacts(gv, dv, pos, i);
      NeighbourWithinOne(gv, dv, pos, n);
    }
    var p := ParentOf(gv, dv, pos);
    AdjacentCases(pos, p);
    var w := if p == Nb(pos, 1) then 0 else if p == Nb(pos, 0) then 1 else if p == Nb(pos, 3) then 2 else 3;
    MoveDeltaIsNb(pos, w);
    assert vals[w] == Some(dv[pos] - 1);
    MinValueIs(vals, dv[pos] - 1, w);
  }

  lemma FieldNeighbourFacts(gv: Plane, dv: Plane, seeds: set<Cell>, pos: Cell, i: int)
    requires IsFieldOf(gv, dv, seeds) && Free(gv, dv, pos)
    ensures NeighbourFacts(gv, dv, pos, i)
  {
  }

  /** A candidate of the scan leads to a free neighbour holding the value it was chosen for. */
  lemma CandidateLeadsTo(gv: Plane, dv: Plane, pos: Cell, vals: seq<Option<int>>, m: int, ps: seq<Delta>, delta: Delta)
    requires vals == NeighbourValues(gv, dv, pos) && ps == AtValue(vals, m, 4) && delta in ps
    ensures Free(gv, dv, Step(pos, delta)) && dv[Step(pos, delta)] == m
  {
    var i :| 0 <= i < 4 && vals[i] == Some(m) && MoveDelta(i) == delta;
    assert vals[i] == Open(gv, dv, Step(pos, MoveDelta(i)));
  }

  /** The descent argument from the shape of the neighbour values alone. */
  lemma LocalDirectionDescends(gv: Plane, dv: Plane, pos: Cell, prev: Option<Delta>, target: int)
    requires pos in dv && dv[pos] < INTMAX
    requires InRange(NeighbourValues(gv, dv, pos))
    requires MinValue(NeighbourValues(gv, dv, pos), 4) == dv[pos] - 1
    requires FirstOpen(NeighbourValues(gv, dv, pos), 4).Some?
    requires FirstOpen(NeighbourValues(gv, dv, pos), 4).value < INTMAX
    ensures var r := Direction(gv, dv, pos, prev, target);
      && (r.Ok? ==> Free(gv, dv, Step(pos, r.value)) && dv[Step(pos, r.value)] == dv[pos] - 1)
      && (r.Err? ==> r.error == VerticalAssertion || r.error == GiveUp)
  {
    var vals := NeighbourValues(gv, dv, pos);
    CandidatesAreClosest(vals);
    var ps := Candidates(vals).value;
    TieBreakPicksCandidate(ps, prev, target);
    var r := TieBreak(ps, prev, target);
    assert Direction(gv, dv, pos, prev, target) == r;
    if r.Ok? {
      CandidateLeadsTo(gv, dv, pos, vals, dv[pos] - 1, ps, r.value);
    }
  }

  /**
   * On a distance field, a unit standing on a free cell that can reach its
   * target never meets the UnboundLocalError, and every move it is given
   * goes to a free neighbour one step closer to the target.
   */
  lemma DirectionDescends(gv: Plane, dv: Plane, seeds: set<Cell>, pos: Cell, prev: Option<Delta>, target: int)
    requires IsFieldOf(gv, dv, seeds) && Free(gv, dv, pos) && 0 < dv[pos] < INTMAX
    ensures var r := Direction(gv, dv, pos, prev, target);
      && (r.Ok? ==> Free(gv, dv, Step(pos, r.value)) && dv[Step(pos, r.value)] == dv[pos] - 1)
      && (r.Err? ==> r.error == VerticalAssertion || r.error == GiveUp)
  {
    assert Relaxed(gv, dv, pos) && HasParent(gv, dv, pos) && dv[pos] < PLAYABLE_CELLS;
    FieldNeighbourFacts(gv, dv, seeds, pos, 0);
    FieldNeighbourFacts(gv, dv, seeds, pos, 1);
    FieldNeighbourFacts(gv, dv, seeds, pos, 2);
    FieldNeighbourFacts(gv, dv, seeds, pos, 3);
    NeighbourMinimum(gv, dv, pos);
    LocalDirectionDescends(gv, dv, pos, prev, target);
  }

  // ---- one unit's turn (_move_one) ----

  /** What add_unit establishes for a mobile unit and every move keeps: a playable cell and a target edge. */
  predicate WellPlaced(u: Unit)
  {
    IsMobile(u.id) ==> Playable(u.pos.0, u.pos.1) && u.target.Some? && 2 <= u.target.value <= 5
  }

  /** A unit add_unit accepts is well placed: mobile units start on a playable border cell. */
  lemma NewUnitIsWellPlaced(team: Team, stats: UnitStats, pos: Cell)
    requires PlacementError(team, stats, pos).None?
    ensures WellPlaced(NewUnit(team, stats, pos))
  {
    PlacementRules(team, stats, pos);
  }

  /** recompute_distance_maps leaves one plane for each of the edges 2, 3, 4 and 5. */
  ghost predicate MapsOk(maps: map<int, Plane>)
  {
    forall t :: 2 <= t <= 5 ==> t in maps && IsPlane(maps[t])
  }

  /** The unit after its turn, and whether it raised the 'score' event. */
  datatype Moved = Moved(unit: Unit, scored: bool)

  /**
   * _move_one on grid gv and the distance maps: structures stay; a mobile
   * unit counts a turn and acts once the count reaches its speed: on its
   * target edge it scores and its stability drops to 0, elsewhere it takes
   * the step get_direction chooses and remembers it.
   */
  function MoveOne(gv: Plane, maps: map<int, Plane>, u: Unit): (r: Result<Moved>)
    requires WellPlaced(u) && MapsOk(maps)
    ensures !IsMobile(u.id) ==> r == Ok(Moved(u, false))
    ensures r.Ok? ==> var v := r.value.unit;
      && v.id == u.id && v.speed == u.speed && v.range == u.range && v.dpf == u.dpf
      && v.target == u.target
    ensures r.Err? ==> IsMobile(u.id) && u.nTurnsStatic + 1 >= u.speed
    ensures r.Ok? && r.value.scored ==> r.value.unit == u.(nTurnsStatic := 0, stability := 0)
    ensures IsMobile(u.id) && u.nTurnsStatic + 1 < u.speed ==>
      r == Ok(Moved(u.(nTurnsStatic := u.nTurnsStatic + 1), false))
    ensures IsMobile(u.id) && u.nTurnsStatic + 1 >= u.speed && r.Ok? ==> r.value.unit.nTurnsStatic == 0
  {
    if !IsMobile(u.id) then Ok(Moved(u, false))
    else
      var count := u.nTurnsStatic + 1;
      if count < u.speed then Ok(Moved(u.(nTurnsStatic := count), false))
      else
        var dv := maps[u.target.value];
        PlayableInBox(u.pos);
        if dv[u.pos] == 0 then Ok(Moved(u.(nTurnsStatic := 0, stability := 0), true))
        else
          match Direction(gv, dv, u.pos, u.previousMove, u.target.value)
          case Err(e) => Err(e)
          case Ok(delta) => Ok(Moved(u.(nTurnsStatic := 0, pos := Step(u.pos, delta), previousMove := Some(delta)), false))
  }

  lemma PlayableInBox(c: Cell)
    requires Playable(c.0, c.1)
    ensures InBox(c.0, c.1)
  {
  }

  /** Every offset the scan collects points at an accessible neighbour. */
  lemma {:induction false} ScanPrefixOffsets(vals: seq<Option<int>>, k: nat)
    requires k <= |vals| <= 4
    ensures ScanPrefix(vals, k).Ok? && ScanPrefix(vals, k).value.possible.Some? ==>
      forall delta :: delta in ScanPrefix(vals, k).value.possible.value ==>
        exists i :: 0 <= i < k && vals[i].Some? && MoveDelta(i) == delta
  {
    if k > 0 {
      ScanPrefixOffsets(vals, k - 1);
    }
  }

  /** Whatever get_direction returns leads to an accessible neighbour, on any grid and map. */
  lemma DirectionIsOpen(gv: Plane, dv: Plane, pos: Cell, prev: Option<Delta>, target: int)
    requires pos in dv && Direction(gv, dv, pos, prev, target).Ok?
    ensures Free(gv, dv, Step(pos, Direction(gv, dv, pos, prev, target).value))
    ensures Adjacent(pos, Step(pos, Direction(gv, dv, pos, prev, target).value))
  {
    var vals := NeighbourValues(gv, dv, pos);
    ScanPrefixOffsets(vals, 4);
    var ps := Candidates(vals).value;
    TieBreakPicksCandidate(ps, prev, target);
    var delta := Direction(gv, dv, pos, prev, target).value;
    assert delta in ps;
    var i :| 0 <= i < 4 && vals[i].Some? && MoveDelta(i) == delta;
    assert vals[i] == Open(gv, dv, Step(pos, MoveDelta(i)));
    MoveDeltaIsNb(pos, i);
  }

  /**
   * A turn keeps a unit well placed: a mobile unit only ever steps onto a
   * cell the grid leaves free, and free cells are playable.
   */
  lemma MoveOneKeepsPlacement(gv: Plane, maps: map<int, Plane>, u: Unit)
    requires GridOk(gv) && WellPlaced(u) && MapsOk(maps) && MoveOne(gv, maps, u).Ok?
    ensures WellPlaced(MoveOne(gv, maps, u).value.unit)
  {
    if IsMobile(u.id) && u.nTurnsStatic + 1 >= u.speed {
      var dv := maps[u.target.value];
      PlayableInBox(u.pos);
      if dv[u.pos] != 0 {
        DirectionIsOpen(gv, dv, u.pos, u.previousMove, u.target.value);
      }
    }
  }

  /**
   * A mobile unit whose turn to act has come, standing on a free cell of
   * the distance field of its target edge: it scores exactly when it stands
   * on a seed of that field (its stability drops to 0 and it stays put);
   * a unit that cannot reach its target meets the failing reachability
   * walk; otherwise it steps to a neighbour one closer and remembers the
   * step, or get_direction's assertion or give-up stops the game.
   */
  lemma MoveOneOnField(gv: Plane, maps: map<int, Plane>, u: Unit, seeds: set<Cell>)
    requires WellPlaced(u) && MapsOk(maps) && IsMobile(u.id) && u.nTurnsStatic + 1 >= u.speed
    requires IsFieldOf(gv, maps[u.target.value], seeds) && Free(gv, maps[u.target.value], u.pos)
    ensures var dv := maps[u.target.value]; var r := MoveOne(gv, maps, u);
      && (u.pos in seeds <==> r.Ok? && r.value.scored)
      && (u.pos in seeds ==> r == Ok(Moved(u.(nTurnsStatic := 0, stability := 0), true)))
      && (dv[u.pos] == INTMAX ==> r == Err(ReachabilityWalk))
      && (u.pos !in seeds && dv[u.pos] < INTMAX ==>
            && (r.Ok? ==> var v := r.value.unit;
                  && Adjacent(u.pos, v.pos) && Free(gv, dv, v.pos) && dv[v.pos] == dv[u.pos] - 1
                  && v.previousMove == Some((v.pos.0 - u.pos.0, v.pos.1 - u.pos.1))
                  && v.nTurnsStatic == 0 && v.stability == u.stability)
            && (r.Err? ==> r.error == VerticalAssertion || r.error == GiveUp))
  {
    var dv := maps[u.target.value];
    assert 0 <= dv[u.pos] <= INTMAX && (dv[u.pos] == 0 <==> u.pos in seeds);
    if u.pos !in seeds && dv[u.pos] < INTMAX {
      DirectionDescends(gv, dv, seeds, u.pos, u.previousMove, u.target.value);
    }
    MoveOneCases(gv, maps, u, u.pos in seeds);
  }

  /** MoveOne for a unit due to act, from what the distance map says about its cell. */
  lemma MoveOneCases(gv: Plane, maps: map<int, Plane>, u: Unit, onSeed: bool)
    requires WellPlaced(u) && MapsOk(maps) && IsMobile(u.id) && u.nTurnsStatic + 1 >= u.speed
    requires var dv := maps[u.target.value];
      u.pos in dv && 0 <= dv[u.pos] <= INTMAX && (dv[u.pos] == 0 <==> onSeed)
    requires var dv := maps[u.target.value]; var r := Direction(gv, dv, u.pos, u.previousMove, u.target.value);
      !onSeed && dv[u.pos] < INTMAX ==>
        && (r.Ok? ==> Free(gv, dv, Step(u.pos, r.value)) && dv[Step(u.pos, r.value)] == dv[u.pos] - 1)
        && (r.Err? ==> r.error == VerticalAssertion || r.error == GiveUp)
    ensures var dv := maps[u.target.value]; var r := MoveOne(gv, maps, u);
      && (onSeed <==> r.Ok? && r.value.scored)
      && (onSeed ==> r == Ok(Moved(u.(nTurnsStatic := 0, stability := 0), true)))
      && (dv[u.pos] == INTMAX ==> r == Err(ReachabilityWalk))
      && (!onSeed && dv[u.pos] < INTMAX ==>
            && (r.Ok? ==> var v := r.value.unit;
                  && Adjacent(u.pos, v.pos) && Free(gv, dv, v.pos) && dv[v.pos] == dv[u.pos] - 1
                  && v.previousMove == Some((v.pos.0 - u.pos.0, v.pos.1 - u.pos.1))
                  && v.nTurnsStatic == 0 && v.stability == u.stability)
            && (r.Err? ==> r.error == VerticalAssertion || r.error == GiveUp))
  {
    var dv := maps[u.target.value];
    if !onSeed && dv[u.pos] < INTMAX && Direction(gv, dv, u.pos, u.previousMove, u.target.value).Ok? {
      DirectionIsOpen(gv, dv, u.pos, u.previousMove, u.target.value);
    }
  }

  // ---- the choice of find_deepest_position ----

  /**
   * prefered_directions: the signs (px, py) of the coordinates the
   * self-destruct choice maximises, y first. Edge 5 reads (1, 1) although
   * that edge lies at small y.
   */
  function PreferredDirection(target: int): Delta
  {
    match target
    case 2 => (1, 1)
    case 3 => (-1, 1)
    case 4 => (-1, -1)
    case _ => (1, 1)
  }

  /** a is strictly deeper than b: farther along py in y, or level and farther along px in x. */
  predicate Deeper(a: Cell, b: Cell, pref: Delta)
  {
    a.1 * pref.1 > b.1 * pref.1 || (a.1 == b.1 && a.0 * pref.0 > b.0 * pref.0)
  }

  /** One iteration of the selection loop: the candidate replaces the best cell exactly when it is deeper. */
  function SelectStep(best: Cell, s: Cell, pref: Delta): (r: Cell)
    ensures r == (if Deeper(s, best, pref) then s else best)
  {
    if s.1 * pref.1 > best.1 * pref.1 then (s.0, s.1)
    else if s.1 == best.1 then (if s.0 * pref.0 > best.0 * pref.0 then (s.0, best.1) else best)
    else best
  }

  /** best is one of the cells and none of them is deeper. */
  ghost predicate IsDeepest(best: Cell, cells: set<Cell>, pref: Delta)
  {
    best in cells && forall c :: c in cells ==> !Deeper(c, best, pref)
  }

  predicate IsSign(k: int) { k == 1 || k == -1 }

  /** With unit signs, of two distinct cells exactly one is deeper. */
  lemma DeeperIsTotal(a: Cell, b: Cell, pref: Delta)
    requires IsSign(pref.0) && IsSign(pref.1)
    ensures a != b <==> (Deeper(a, b, pref) || Deeper(b, a, pref))
    ensures !(Deeper(a, b, pref) && Deeper(b, a, pref))
  {
  }

  /** The deepest cell is unique, so the result does not depend on the order the set is visited in. */
  lemma DeepestIsUnique(a: Cell, b: Cell, cells: set<Cell>, pref: Delta)
    requires IsSign(pref.0) && IsSign(pref.1)
    requires IsDeepest(a, cells, pref) && IsDeepest(b, cells, pref)
    ensures a == b
  {
    DeeperIsTotal(a, b, pref);
  }

  /** A step of the loop keeps the running choice the deepest of the cells seen so far. */
  lemma SelectStepKeeps(best: Cell, s: Cell, seen: set<Cell>, pref: Delta)
    requires IsSign(pref.0) && IsSign(pref.1) && IsDeepest(best, seen, pref)
    ensures IsDeepest(SelectStep(best, s, pref), seen + {s}, pref)
  {
    var r := SelectStep(best, s, pref);
    forall c | c in seen + {s}
      ensures !Deeper(c, r, pref)
    {
      DeeperIsTotal(c, r, pref);
      DeeperIsTotal(s, best, pref);
      if c != s && r == s {
        assert !Deeper(c, best, pref);
      }
    }
  }

  /**
   * The selection loop of find_deepest_position over the cells the walk
   * visited, in whatever order the set yields them, starting from the
   * unit's own cell.
   */
  method SelectDeepest(start: Cell, visited: set<Cell>, pref: Delta) returns (best: Cell)
    requires IsSign(pref.0) && IsSign(pref.1)
    ensures IsDeepest(best, visited + {start}, pref)
  {
    best := start;
    var rest := visited;
    while rest != {}
      invariant rest <= visited
      invariant IsDeepest(best, {start} + (visited - rest), pref)
      decreases |rest|
    {
      var s :| s in rest;
      SelectStepKeeps(best, s, {start} + (visited - rest), pref);
      best := SelectStep(best, s, pref);
      assert {start} + (visited - rest) + {s} == {start} + (visited - (rest - {s}));
      rest := rest - {s};
    }
    assert {start} + (visited - rest) == visited + {start};
  }

  /**
   * For the edges 2, 3 and 4 the table points at the edge: a cell of the
   * edge is deeper than any cell on the other half of the board, and the
   * signs agree with PREFERED_LOC of get_direction.
   */
  lemma EdgeIsDeepest(t: int, e: Cell, c: Cell)
    requires 2 <= t <= 4 && OnEdge(t, e)
    requires if t == 2 || t == 3 then c.1 <= 14 else c.1 >= 15
    ensures Deeper(e, c, PreferredDirection(t))
    ensures PreferredLoc(t) == [(0, PreferredDirection(t).1), (PreferredDirection(t).0, 0)]
  {
  }

  /**
   * For edge 5 (y <= 14) the table prefers large y: of the edge cell
   * (15, 1) and the cell (15, 15) on the enemy's own half the choice keeps
   * the latter, and the signs disagree with PREFERED_LOC[5].
   */
  lemma PreferredDirectionMissesEdgeFive()
    ensures OnEdge(5, (15, 1))
    ensures !Deeper((15, 1), (15, 15), PreferredDirection(5))
    ensures IsDeepest((15, 15), {(15, 1), (15, 15)}, PreferredDirection(5))
    ensures PreferredLoc(5) != [(0, PreferredDirection(5).1), (PreferredDirection(5).0, 0)]
  {
  }

  // ---- one side's moves (the loops of __call__) ----

  /** Every unit of a list is well placed. */
  predicate AllPlaced(us: seq<Unit>)
  {
    forall i :: 0 <= i < |us| ==> WellPlaced(us[i])
  }

  /**
   * The first k units of a list take their turn in order: the updated
   * units, and the cell of every 'score' event in the order raised. The
   * first failing turn stops the loop.
   */
  function MoveAll(gv: Plane, maps: map<int, Plane>, us: seq<Unit>, k: nat): Result<(seq<Unit>, seq<Cell>)>
    requires k <= |us| && AllPlaced(us) && MapsOk(maps)
  {
    if k == 0 then Ok(([], []))
    else
      match MoveAll(gv, maps, us, k - 1)
      case Err(e) => Err(e)
      case Ok(acc) =>
        match MoveOne(gv, maps, us[k - 1])
        case Err(e) => Err(e)
        case Ok(m) => Ok((acc.0 + [m.unit], acc.1 + if m.scored then [us[k - 1].pos] else []))
  }

  /** The number of units whose turn raised the 'score' event. */
  function ScoreCount(ms: seq<Moved>): nat
  {
    if ms == [] then 0 else ScoreCount(ms[..|ms| - 1]) + if ms[|ms| - 1].scored then 1 else 0
  }

  /** At most one event per unit. */
  lemma {:induction false} ScoreCountBound(ms: seq<Moved>)
    ensures ScoreCount(ms) <= |ms|
  {
    if ms != [] {
      ScoreCountBound(ms[..|ms| - 1]);
    }
  }

  /**
   * After a side's moves every unit is still well placed, each is the
   * result of its own turn, structures are unchanged, and there is one
   * event per scoring unit.
   */
  lemma {:induction false} MoveAllMeaning(gv: Plane, maps: map<int, Plane>, us: seq<Unit>, k: nat)
    requires k <= |us| && AllPlaced(us) && MapsOk(maps) && GridOk(gv)
    requires MoveAll(gv, maps, us, k).Ok?
    ensures var (moved, events) := MoveAll(gv, maps, us, k).value;
      && |moved| == k && AllPlaced(moved)
      && (forall i :: 0 <= i < k ==> MoveOne(gv, maps, us[i]).Ok? && moved[i] == MoveOne(gv, maps, us[i]).value.unit)
      && (forall i :: 0 <= i < k && !IsMobile(us[i].id) ==> moved[i] == us[i])
      && |events| == ScoreCount(seq(k, i requires 0 <= i < k => MoveOne(gv, maps, us[i]).value))
  {
    if k > 0 {
      MoveAllMeaning(gv, maps, us, k - 1);
      MoveOneKeepsPlacement(gv, maps, us[k - 1]);
      var ms := seq(k, i requires 0 <= i < k => MoveOne(gv, maps, us[i]).value);
      assert ms[..k - 1] == seq(k - 1, i requires 0 <= i < k - 1 => MoveOne(gv, maps, us[i]).value);
    }
  }
}
