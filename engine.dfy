/**
 * The turn loop of tc1/engine.py (simulate_and_show without the
 * animation): each turn the MapGraph moves the units, the DamageEngine
 * resolves the shots, the dead units are pruned and the state is
 * serialized.
 */
module Engine {
  import opened Wrappers
  import opened State
  import opened Movement
  import D = Damage
  import MG = MapGraph

  /** What a turn needs of the lists: mobile units placed, structures inside the grid. */
  predicate Ready(s: seq<Unit>, a: seq<Unit>)
  {
    AllPlaced(s) && AllPlaced(a) && MG.StructuresInBox(s) && MG.StructuresInBox(a)
  }

  /** Survivors of a pass are units of the list. */
  lemma {:induction false} PruneMembers(s: seq<Unit>)
    ensures forall u :: u in PruneAsWritten(s) ==> u in s
    decreases |s|
  {
    if s == [] {
    } else if s[0].stability > 0 {
      PruneMembers(s[1..]);
    } else if |s| > 1 {
      PruneMembers(s[2..]);
      assert forall u :: u in s[2..] ==> u in s;
    }
  }

  /** Damage changes only stabilities and pruning only drops units, so the next turn may be played. */
  lemma DamageAndPruneKeepReady(s: seq<Unit>, a: seq<Unit>)
    requires Ready(s, a)
    ensures var b := D.Combat(s, a);
      Ready(b.sUnits, b.aUnits) && Ready(PruneAsWritten(b.sUnits), PruneAsWritten(b.aUnits))
  {
    var b := D.Combat(s, a);
    assert Ready(b.sUnits, b.aUnits) by {
      assert forall j :: 0 <= j < |s| ==> b.sUnits[j].pos == s[j].pos && b.sUnits[j].id == s[j].id;
      assert forall j :: 0 <= j < |a| ==> b.aUnits[j].pos == a[j].pos && b.aUnits[j].id == a[j].id;
    }
    PruneMembers(b.sUnits);
    PruneMembers(b.aUnits);
    ReadyByMembers(b.sUnits, PruneAsWritten(b.sUnits));
    ReadyByMembers(b.aUnits, PruneAsWritten(b.aUnits));
  }

  lemma ReadyByMembers(s: seq<Unit>, r: seq<Unit>)
    requires AllPlaced(s) && MG.StructuresInBox(s) && forall u :: u in r ==> u in s
    ensures AllPlaced(r) && MG.StructuresInBox(r)
  {
    forall k | 0 <= k < |r|
      ensures WellPlaced(r[k]) && (!IsMobile(r[k].id) ==> Grid.InBox(r[k].pos.0, r[k].pos.1))
    {
      assert r[k] in s;
      var i :| 0 <= i < |s| && s[i] == r[k];
    }
  }

  /**
   * A completed move phase leaves the lists ready for the shots, and the
   * healths within one point per opposing unit.
   */
  lemma MovesKeepReady(gv: Field.Plane, maps: map<int, Field.Plane>, s: seq<Unit>, a: seq<Unit>,
                       sHealth: int, aHealth: int, s1: seq<Unit>, a1: seq<Unit>, sh1: int, ah1: int)
    requires Ready(s, a) && MapsOk(maps) && Field.GridOk(gv)
    requires MG.Play(gv, maps, s, a, sHealth, aHealth) == Ok(MG.Turn(s1, a1, sh1, ah1))
    ensures Ready(s1, a1)
    ensures sHealth - |a| <= sh1 <= sHealth && aHealth - |s| <= ah1 <= aHealth
  {
    MG.PlayKeepsPlacement(gv, maps, s, a, sHealth, aHealth);
  }

  /** The state a snapshot records; serialize_state copies every field of it. */
  ghost function SnapOf(state: GameState): Snapshot
    reads state
  {
    Snapshot(state.sHealth, state.aHealth, state.sCore, state.aCore, state.sBits, state.aBits,
             state.sUnits, state.aUnits)
  }

  /** maps holds, for each border 2 to 5, the distance field of gv to its unoccupied cells. */
  ghost predicate BorderMaps(gv: Field.Plane, maps: map<int, Field.Plane>)
  {
    && MapsOk(maps)
    && (forall t :: t in maps <==> 2 <= t <= 5)
    && (forall t :: t in maps ==> Field.IsFieldOf(gv, maps[t], MG.Seeds(gv, MG.Border(t))))
  }

  /** Recomputing the border fields of a grid can give only one result. */
  lemma BorderMapsAreUnique(gv: Field.Plane, m1: map<int, Field.Plane>, m2: map<int, Field.Plane>)
    requires BorderMaps(gv, m1) && BorderMaps(gv, m2)
    ensures m1 == m2
  {
    assert forall t :: t in m1 <==> t in m2;
    forall t | t in m1 ensures m1[t] == m2[t] {
      Field.FieldIsUnique(gv, m1[t], m2[t], MG.Seeds(gv, MG.Border(t)));
    }
  }

  /**
   * The snapshot of one turn played from the state pre on the grid gv with
   * the distance maps maps: the moves, then the shots, then the pruning.
   */
  ghost function TurnResult(gv: Field.Plane, maps: map<int, Field.Plane>, pre: Snapshot): Result<Snapshot>
    requires Ready(pre.sUnits, pre.aUnits) && MapsOk(maps)
  {
    match MG.Play(gv, maps, pre.sUnits, pre.aUnits, pre.sHealth, pre.aHealth)
    case Err(e) => Err(e)
    case Ok(t) =>
      var b := D.Combat(t.sUnits, t.aUnits);
      if b.failure.Some? then Err(b.failure.value)
      else Ok(Snapshot(t.sHealth, t.aHealth, pre.sCore, pre.aCore, pre.sBits, pre.aBits,
                       PruneAsWritten(b.sUnits), PruneAsWritten(b.aUnits)))
  }

  /**
   * r is the outcome of one turn from pre: the structures of pre are painted
   * on the template tv, the four border fields are recomputed on that grid,
   * and the turn is played on them.
   */
  ghost predicate TurnFrom(tv: Field.Plane, pre: Snapshot, r: Result<Snapshot>)
  {
    && Ready(pre.sUnits, pre.aUnits)
    && exists maps :: BorderMaps(MG.Painted(tv, pre.sUnits, pre.aUnits), maps)
         && r == TurnResult(MG.Painted(tv, pre.sUnits, pre.aUnits), maps, pre)
  }

  /**
   * What Tick promises about its MapGraph and its result makes that result
   * a turn from pre: the grid is the painted template, the maps are its
   * border fields, and the result is the turn played on them.
   */
  lemma TickIsTurn(mg: MG.MapGraph, pre: Snapshot, r: Result<Snapshot>)
    requires mg.Valid() && mg.MapsReady() && mg.FieldsUpTo(6) && Ready(pre.sUnits, pre.aUnits)
    requires Field.View(mg.grid) == MG.Painted(Field.View(mg.gridTemplate), pre.sUnits, pre.aUnits)
    requires var t := MG.Play(Field.View(mg.grid), mg.MapsView(), pre.sUnits, pre.aUnits, pre.sHealth, pre.aHealth);
      && (t.Err? ==> r == Err(t.error))
      && (t.Ok? ==>
            var b := D.Combat(t.value.sUnits, t.value.aUnits);
            && (b.failure.Some? ==> r == Err(b.failure.value))
            && (b.failure.None? ==>
                  r == Ok(Snapshot(t.value.sHealth, t.value.aHealth, pre.sCore, pre.aCore, pre.sBits, pre.aBits,
                                   PruneAsWritten(b.sUnits), PruneAsWritten(b.aUnits)))))
    ensures TurnFrom(Field.View(mg.gridTemplate), pre, r)
  {
    var gv, maps := Field.View(mg.grid), mg.MapsView();
    assert BorderMaps(gv, maps);
    assert r == TurnResult(gv, maps, pre);
  }

  /** A turn is determined by the template and the state it starts from. */
  lemma TurnIsDetermined(tv: Field.Plane, pre: Snapshot, r1: Result<Snapshot>, r2: Result<Snapshot>)
    requires TurnFrom(tv, pre, r1) && TurnFrom(tv, pre, r2)
    ensures r1 == r2
  {
    var gv := MG.Painted(tv, pre.sUnits, pre.aUnits);
    var m1 :| BorderMaps(gv, m1) && r1 == TurnResult(gv, m1, pre);
    var m2 :| BorderMaps(gv, m2) && r2 == TurnResult(gv, m2, pre);
    BorderMapsAreUnique(gv, m1, m2);
  }

  /** The state before turn k + 1 of a run from init whose snapshots so far are logs. */
  function Before(init: Snapshot, logs: seq<Snapshot>, k: nat): (pre: Snapshot)
    requires k <= |logs|
    ensures k > 0 ==> pre == logs[k - 1]
  {
    if k == 0 then init else logs[k - 1]
  }

  /**
   * The rest of a turn once the units have moved: the DamageEngine, then
   * remove_dead_units, then serialize_state. A raise in the damage phase
   * ends the turn with that error.
   */
  method Resolve(state: GameState) returns (r: Result<Snapshot>)
    requires Ready(state.sUnits, state.aUnits)
    modifies state
    ensures var b := D.Combat(old(state.sUnits), old(state.aUnits));
      && (b.failure.Some? ==> r == Err(b.failure.value))
      && (b.failure.None? ==>
            r == Ok(Snapshot(old(state.sHealth), old(state.aHealth), old(state.sCore), old(state.aCore),
                             old(state.sBits), old(state.aBits),
                             PruneAsWritten(b.sUnits), PruneAsWritten(b.aUnits))))
    ensures r.Ok? ==> (Ready(state.sUnits, state.aUnits)
      && r.value == Snapshot(state.sHealth, state.aHealth, state.sCore, state.aCore, state.sBits, state.aBits,
                             state.sUnits, state.aUnits))
  {
    DamageAndPruneKeepReady(state.sUnits, state.aUnits);
    var shot := D.DamageEngineCall(state);
    if shot.Fail? {
      return Err(shot.error);
    }
    state.RemoveDeadUnits();
    var snap := state.SerializeState();
    r := Ok(snap);
  }

  /**
   * One turn: move, damage, remove_dead_units, serialize_state. A raise in
   * the movement or damage phase ends the run with that error; otherwise
   * the snapshot holds the health left after the scores (at most one point
   * per opposing unit), the unchanged cores and bits, and the pruned lists
   * after the shots.
   */
  method Tick(mg: MG.MapGraph, state: GameState) returns (r: Result<Snapshot>)
    requires mg.Valid() && Ready(state.sUnits, state.aUnits)
    modifies mg, state
    ensures mg.Valid() && mg.MapsReady() && mg.FieldsUpTo(6)
    ensures Field.View(mg.grid) == MG.Painted(Field.View(mg.gridTemplate), old(state.sUnits), old(state.aUnits))
    ensures var t := MG.Play(Field.View(mg.grid), mg.MapsView(), old(state.sUnits), old(state.aUnits),
                             old(state.sHealth), old(state.aHealth));
      && (t.Err? ==> r == Err(t.error))
      && (t.Ok? ==>
            var b := D.Combat(t.value.sUnits, t.value.aUnits);
            && (b.failure.Some? ==> r == Err(b.failure.value))
            && (b.failure.None? ==>
                  && r == Ok(Snapshot(t.value.sHealth, t.value.aHealth, old(state.sCore), old(state.aCore),
                                      old(state.sBits), old(state.aBits),
                                      PruneAsWritten(b.sUnits), PruneAsWritten(b.aUnits)))
                  && old(state.sHealth) - |old(state.aUnits)| <= t.value.sHealth <= old(state.sHealth)
                  && old(state.aHealth) - |old(state.sUnits)| <= t.value.aHealth <= old(state.aHealth)))
    ensures r.Ok? ==> (Ready(state.sUnits, state.aUnits)
      && r.value == Snapshot(state.sHealth, state.aHealth, state.sCore, state.aCore, state.sBits, state.aBits,
                             state.sUnits, state.aUnits))
  {
    ghost var s0, a0, sh0, ah0 := state.sUnits, state.aUnits, state.sHealth, state.aHealth;
    var moved := mg.Call(state);
    assert mg.Valid() && mg.MapsReady();
    ghost var gv, maps := Field.View(mg.grid), mg.MapsView();
    if moved.Fail? {
      return Err(moved.error);
    }
    label moved:
    MovesKeepReady(gv, maps, s0, a0, sh0, ah0, state.sUnits, state.aUnits, state.sHealth, state.aHealth);
    r := Resolve(state);
    assert unchanged@moved(mg, mg.grid, mg.gridTemplate, mg.dTemplate);
  }

  /** Each snapshot of logs is the turn played from the state before it, starting from init. */
  ghost predicate Traced(tv: Field.Plane, init: Snapshot, logs: seq<Snapshot>)
  {
    forall k :: 0 <= k < |logs| ==> TurnFrom(tv, Before(init, logs, k), Ok(logs[k]))
  }

  /** l extends logs, so the state before turn k + 1 is the same in both. */
  lemma SamePrefix(init: Snapshot, logs: seq<Snapshot>, l: seq<Snapshot>, k: nat)
    requires logs <= l && k <= |logs|
    ensures k <= |l| && Before(init, l, k) == Before(init, logs, k)
  {
  }

  /** A log extended by the turn from its last state is still traced. */
  lemma TracedAppend(tv: Field.Plane, init: Snapshot, logs: seq<Snapshot>, snap: Snapshot)
    requires Traced(tv, init, logs) && TurnFrom(tv, Before(init, logs, |logs|), Ok(snap))
    ensures Traced(tv, init, logs + [snap])
    ensures Before(init, logs + [snap], |logs| + 1) == snap
  {
    var l := logs + [snap];
    forall k | 0 <= k < |l| ensures TurnFrom(tv, Before(init, l, k), Ok(l[k])) {
      SamePrefix(init, logs, l, k);
      if k < |logs| {
        assert l[k] == logs[k];
      } else {
        assert l[k] == snap;
      }
    }
  }

  /**
   * What the snapshots of a run keep: the cores and bits given, and health
   * that never rises, starting from at most sHealth and aHealth.
   */
  ghost predicate Steady(logs: seq<Snapshot>, sCore: int, aCore: int, sBits: int, aBits: int,
                         sHealth: int, aHealth: int)
  {
    && (forall k :: 0 <= k < |logs| ==>
          && logs[k].sCore == sCore && logs[k].aCore == aCore
          && logs[k].sBits == sBits && logs[k].aBits == aBits)
    && (forall k :: 0 < k < |logs| ==>
          logs[k].sHealth <= logs[k - 1].sHealth && logs[k].aHealth <= logs[k - 1].aHealth)
    && (|logs| > 0 ==> logs[0].sHealth <= sHealth && logs[0].aHealth <= aHealth)
  }

  /** A snapshot with the same cores and bits and no more health than the last one extends a steady log. */
  lemma SteadyAppend(logs: seq<Snapshot>, snap: Snapshot, sCore: int, aCore: int, sBits: int, aBits: int,
                     sHealth: int, aHealth: int)
    requires Steady(logs, sCore, aCore, sBits, aBits, sHealth, aHealth)
    requires snap.sCore == sCore && snap.aCore == aCore && snap.sBits == sBits && snap.aBits == aBits
    requires |logs| > 0 ==> snap.sHealth <= logs[|logs| - 1].sHealth && snap.aHealth <= logs[|logs| - 1].aHealth
    requires |logs| == 0 ==> snap.sHealth <= sHealth && snap.aHealth <= aHealth
    ensures Steady(logs + [snap], sCore, aCore, sBits, aBits, sHealth, aHealth)
  {
    var l := logs + [snap];
    assert forall k :: 0 <= k < |logs| ==> l[k] == logs[k];
  }

  /**
   * The loop of simulate_and_show: up to n turns with one snapshot each; a
   * raise stops the run. Cores and bits never change and health never
   * rises from one snapshot to the next.
   */
  method Run(mg: MG.MapGraph, state: GameState, n: nat) returns (logs: seq<Snapshot>, r: Outcome)
    requires mg.Valid() && Ready(state.sUnits, state.aUnits)
    modifies mg, state
    ensures |logs| <= n && (r.Pass? ==> |logs| == n)
    ensures Steady(logs, old(state.sCore), old(state.aCore), old(state.sBits), old(state.aBits),
                   old(state.sHealth), old(state.aHealth))
    ensures Traced(Field.View(mg.gridTemplate), old(SnapOf(state)), logs)
    ensures r.Fail? ==> TurnFrom(Field.View(mg.gridTemplate), Before(old(SnapOf(state)), logs, |logs|), Err(r.error))
    ensures r.Pass? ==> SnapOf(state) == Before(old(SnapOf(state)), logs, |logs|)
  {
    ghost var tv, init := Field.View(mg.gridTemplate), SnapOf(state);
    ghost var sCore, aCore, sBits, aBits := state.sCore, state.aCore, state.sBits, state.aBits;
    ghost var sHealth, aHealth := state.sHealth, state.aHealth;
    logs := [];
    for k := 0 to n
      invariant mg.Valid() && Ready(state.sUnits, state.aUnits) && |logs| == k
      invariant state.sCore == sCore && state.aCore == aCore && state.sBits == sBits && state.aBits == aBits
      invariant state.sHealth <= sHealth && state.aHealth <= aHealth
      invariant Steady(logs, sCore, aCore, sBits, aBits, sHealth, aHealth)
      invariant SnapOf(state) == Before(init, logs, |logs|)
      invariant Traced(tv, init, logs)
    {
      ghost var pre := SnapOf(state);
      var snap := Tick(mg, state);
      TickIsTurn(mg, pre, snap);
      if snap.Err? {
        return logs, Fail(snap.error);
      }
      SteadyAppend(logs, snap.value, sCore, aCore, sBits, aBits, sHealth, aHealth);
      TracedAppend(tv, init, logs, snap.value);
      logs := logs + [snap.value];
    }
    r := Pass;
  }
}
