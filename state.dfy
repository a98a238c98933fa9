/**
 * The game state of tc1/state.py: health, cores and bits of both players
 * and the two unit lists.  Prefix `s` is the friendly player, `a` the enemy.
 */
module State {
  import opened Wrappers

  /** A cell of the 30x30 padded grid, as (x, y). */
  type Cell = (int, int)
  /** A unit move, as (dx, dy). */
  type Delta = (int, int)

  datatype Team = Friendly | Enemy

  /**
   * One row of the unit catalogue (name -> stats).  The catalogue itself is
   * a parameter: ids 1..3 are mobile kinds, 4..6 structures, 3 the scrambler.
   */
  datatype UnitStats = UnitStats(id: int, speed: int, range: int, dpf: int, stability: int)

  /** The unit record built by add_unit; `target` is absent for structures. */
  datatype Unit = Unit(
    id: int, speed: int, range: int, dpf: int, stability: int,
    pos: Cell, target: Option<int>, previousMove: Option<Delta>, nTurnsStatic: int)

  /** Offensive (mobile) kinds have id 3 or below; id > 3 is a structure. */
  predicate IsMobile(id: int) { id < 4 }

  const INITIALE_HEALTH: int := 30
  const INITIALE_CORE: int := 5
  const INITIALE_BITS: int := 6

  /** (15-i, i) then (14+i, i), for i in 1..14. */
  function FriendlyBorders(): seq<Cell>
  {
    seq(14, k => (14 - k, k + 1)) + seq(14, k => (15 + k, k + 1))
  }
  /** (i, 14+i) then (29-i, 14+i), for i in 1..14. */
  function EnnemyBorders(): seq<Cell>
  {
    seq(14, k => (k + 1, 15 + k)) + seq(14, k => (28 - k, 15 + k))
  }

  function OwnBorders(team: Team): seq<Cell>
  {
    if team == Friendly then FriendlyBorders() else EnnemyBorders()
  }

  lemma FriendlyBorderCells(c: Cell)
    ensures c in FriendlyBorders() <==> 1 <= c.1 <= 14 && (c.0 == 15 - c.1 || c.0 == 14 + c.1)
  {
    if 1 <= c.1 <= 14 && c.0 == 15 - c.1 {
      assert FriendlyBorders()[c.1 - 1] == c;
    } else if 1 <= c.1 <= 14 && c.0 == 14 + c.1 {
      assert FriendlyBorders()[14 + c.1 - 1] == c;
    }
  }

  lemma EnnemyBorderCells(c: Cell)
    ensures c in EnnemyBorders() <==> 15 <= c.1 <= 28 && (c.0 == c.1 - 14 || c.0 == 43 - c.1)
  {
    if 15 <= c.1 <= 28 && c.0 == c.1 - 14 {
      assert EnnemyBorders()[c.1 - 15] == c;
    } else if 15 <= c.1 <= 28 && c.0 == 43 - c.1 {
      assert EnnemyBorders()[14 + c.1 - 15] == c;
    }
  }

  /**
   * The border a new mobile unit walks to: friendly units aim at the enemy
   * edges 2 (spawned with x < 15) or 3, enemy units at 5 (x < 15) or 4.
   */
  function TargetEdge(team: Team, pos: Cell): (t: int)
    ensures team == Friendly ==> t in {2, 3} && (t == 2 <==> pos.0 < 15)
    ensures team == Enemy ==> t in {4, 5} && (t == 5 <==> pos.0 < 15)
  {
    if team == Friendly then (if pos.0 < 15 then 2 else 3)
    else (if pos.0 < 15 then 5 else 4)
  }

  /** The ValueError add_unit raises for a placement, if any. */
  function PlacementError(team: Team, stats: UnitStats, pos: Cell): Option<Error>
  {
    if IsMobile(stats.id) then
      (if pos !in OwnBorders(team) then Some(OffensivePlacement) else None)
    else if team == Friendly && pos.1 > 14 then Some(DefensivePlacement)
    else if team == Enemy && pos.1 < 15 then Some(DefensivePlacement)
    else None
  }

  /** Placement rules stated on the board's geometry rather than on the border lists. */
  lemma PlacementRules(team: Team, stats: UnitStats, pos: Cell)
    ensures IsMobile(stats.id) && team == Friendly ==>
      (PlacementError(team, stats, pos).None? <==>
         1 <= pos.1 <= 14 && (pos.0 == 15 - pos.1 || pos.0 == 14 + pos.1))
    ensures IsMobile(stats.id) && team == Enemy ==>
      (PlacementError(team, stats, pos).None? <==>
         15 <= pos.1 <= 28 && (pos.0 == pos.1 - 14 || pos.0 == 43 - pos.1))
    ensures !IsMobile(stats.id) ==>
      (PlacementError(team, stats, pos).None? <==>
         if team == Friendly then pos.1 <= 14 else pos.1 >= 15)
    ensures PlacementError(team, stats, pos).Some? ==>
      PlacementError(team, stats, pos).value ==
        (if IsMobile(stats.id) then OffensivePlacement else DefensivePlacement)
  {
    FriendlyBorderCells(pos);
    EnnemyBorderCells(pos);
  }

  /** The record add_unit appends: catalogue stats, pos, no previous move, counter 0. */
  function NewUnit(team: Team, stats: UnitStats, pos: Cell): (u: Unit)
    ensures u.id == stats.id && u.speed == stats.speed && u.range == stats.range
    ensures u.dpf == stats.dpf && u.stability == stats.stability && u.pos == pos
    ensures u.previousMove == None && u.nTurnsStatic == 0
    ensures u.target.Some? <==> IsMobile(stats.id)
    ensures IsMobile(stats.id) ==> u.target == Some(TargetEdge(team, pos))
  {
    Unit(stats.id, stats.speed, stats.range, stats.dpf, stats.stability, pos,
         if IsMobile(stats.id) then Some(TargetEdge(team, pos)) else None,
         None, 0)
  }

  /** The placements exercised by tests/test_state.py (ping is mobile, filter a structure). */
  lemma PlacementExamplesFromTests(ping: UnitStats, filter: UnitStats)
    requires IsMobile(ping.id) && !IsMobile(filter.id)
    ensures PlacementError(Friendly, filter, (1, 14)).None?
    ensures PlacementError(Friendly, filter, (28, 14)).None?
    ensures PlacementError(Enemy, filter, (1, 14)) == Some(DefensivePlacement)
    ensures PlacementError(Friendly, ping, (10, 5)).None?
    ensures PlacementError(Friendly, ping, (10, 6)) == Some(OffensivePlacement)
    ensures PlacementError(Friendly, ping, (9, 5)) == Some(OffensivePlacement)
    ensures PlacementError(Enemy, filter, (1, 15)).None?
    ensures PlacementError(Enemy, filter, (28, 15)).None?
    ensures PlacementError(Friendly, filter, (1, 15)) == Some(DefensivePlacement)
    ensures PlacementError(Enemy, ping, (23, 20)).None?
    ensures PlacementError(Enemy, ping, (23, 19)) == Some(OffensivePlacement)
    ensures PlacementError(Enemy, ping, (22, 20)) == Some(OffensivePlacement)
  {
    PlacementRules(Friendly, ping, (10, 5));
    PlacementRules(Friendly, ping, (10, 6));
    PlacementRules(Friendly, ping, (9, 5));
    PlacementRules(Enemy, ping, (23, 20));
    PlacementRules(Enemy, ping, (23, 19));
    PlacementRules(Enemy, ping, (22, 20));
  }

  /** The live units of a list, in order: what a correct pruning pass would keep. */
  function Alive(s: seq<Unit>): (r: seq<Unit>)
    ensures forall u :: u in r <==> u in s && u.stability > 0
    ensures |r| <= |s|
  {
    if s == [] then []
    else (if s[0].stability > 0 then [s[0]] else []) + Alive(s[1..])
  }

  /**
   * remove_dead_units on one list, as written: it deletes while enumerating,
   * so the element right after a deleted one moves into the deleted slot and
   * is never examined in that pass.
   */
  function PruneAsWritten(s: seq<Unit>): seq<Unit>
    decreases |s|
  {
    if s == [] then []
    else if s[0].stability > 0 then [s[0]] + PruneAsWritten(s[1..])
    else if |s| == 1 then []
    else [s[1]] + PruneAsWritten(s[2..])
  }

  /** r is obtained from s by deleting elements (relative order kept). */
  ghost predicate IsSubsequence(r: seq<Unit>, s: seq<Unit>)
    decreases |s|
  {
    if r == [] then true
    else if s == [] then false
    else (r[0] == s[0] && IsSubsequence(r[1..], s[1..])) || IsSubsequence(r, s[1..])
  }

  lemma {:induction false} SubsequenceOfSelf(s: seq<Unit>)
    ensures IsSubsequence(s, s)
    decreases |s|
  {
    if s != [] { SubsequenceOfSelf(s[1..]); }
  }

  /** Survivors keep their relative order. */
  lemma {:induction false} PruneIsSubsequence(s: seq<Unit>)
    ensures IsSubsequence(PruneAsWritten(s), s)
    decreases |s|
  {
    if s == [] {
    } else if s[0].stability > 0 {
      PruneIsSubsequence(s[1..]);
    } else if |s| == 1 {
    } else {
      PruneIsSubsequence(s[2..]);
      var r := PruneAsWritten(s);
      assert r[0] == s[1] && r[1..] == PruneAsWritten(s[2..]);
      assert s[1..][1..] == s[2..];
      assert IsSubsequence(r, s[1..]);
    }
  }

  /** No live unit is removed: the live units before and after a pass are the same list. */
  lemma {:induction false} PruneKeepsEveryLiveUnit(s: seq<Unit>)
    ensures Alive(PruneAsWritten(s)) == Alive(s)
    decreases |s|
  {
    if s == [] {
    } else if s[0].stability > 0 {
      PruneKeepsEveryLiveUnit(s[1..]);
      assert ([s[0]] + PruneAsWritten(s[1..]))[1..] == PruneAsWritten(s[1..]);
    } else if |s| == 1 {
    } else {
      PruneKeepsEveryLiveUnit(s[2..]);
      assert ([s[1]] + PruneAsWritten(s[2..]))[1..] == PruneAsWritten(s[2..]);
      assert s[1..][1..] == s[2..];
      assert Alive(s) == Alive(s[1..]);
    }
  }

  /** Every removed unit (counted with multiplicity) had stability <= 0. */
  lemma {:induction false} PruneRemovesOnlyDead(s: seq<Unit>)
    ensures forall u: Unit :: u in multiset(s) - multiset(PruneAsWritten(s)) ==> u.stability <= 0
    decreases |s|
  {
    if s == [] {
    } else if s[0].stability > 0 {
      PruneRemovesOnlyDead(s[1..]);
      KeptHeadRemovesOnlyDead(s);
    } else if |s| == 1 {
      assert s == [s[0]];
    } else {
      PruneRemovesOnlyDead(s[2..]);
      DroppedHeadRemovesOnlyDead(s);
    }
  }

  lemma KeptHeadRemovesOnlyDead(s: seq<Unit>)
    requires |s| > 0 && s[0].stability > 0
    requires forall u: Unit :: u in multiset(s[1..]) - multiset(PruneAsWritten(s[1..])) ==> u.stability <= 0
    ensures forall u: Unit :: u in multiset(s) - multiset(PruneAsWritten(s)) ==> u.stability <= 0
  {
    KeptHeadMultisets(s);
    DeadDifference(s[0], None, multiset(s[1..]), multiset(PruneAsWritten(s[1..])),
                   multiset(s), multiset(PruneAsWritten(s)));
  }

  lemma KeptHeadMultisets(s: seq<Unit>)
    requires |s| > 0 && s[0].stability > 0
    ensures multiset(s) == multiset{} + (multiset{s[0]} + multiset(s[1..]))
    ensures multiset(PruneAsWritten(s)) == multiset{s[0]} + multiset(PruneAsWritten(s[1..]))
  {
    assert PruneAsWritten(s) == [s[0]] + PruneAsWritten(s[1..]);
    assert s == [s[0]] + s[1..];
  }

  lemma DroppedHeadRemovesOnlyDead(s: seq<Unit>)
    requires |s| > 1 && s[0].stability <= 0
    requires forall u: Unit :: u in multiset(s[2..]) - multiset(PruneAsWritten(s[2..])) ==> u.stability <= 0
    ensures forall u: Unit :: u in multiset(s) - multiset(PruneAsWritten(s)) ==> u.stability <= 0
  {
    DroppedHeadMultisets(s);
    DeadDifference(s[1], Some(s[0]), multiset(s[2..]), multiset(PruneAsWritten(s[2..])),
                   multiset(s), multiset(PruneAsWritten(s)));
  }

  lemma DroppedHeadMultisets(s: seq<Unit>)
    requires |s| > 1 && s[0].stability <= 0
    ensures multiset(s) == multiset{s[0]} + (multiset{s[1]} + multiset(s[2..]))
    ensures multiset(PruneAsWritten(s)) == multiset{s[1]} + multiset(PruneAsWritten(s[2..]))
  {
    assert PruneAsWritten(s) == [s[1]] + PruneAsWritten(s[2..]);
    assert s == [s[0]] + ([s[1]] + s[2..]);
  }

  /**
   * The multiset step of both cases: a kept unit k appears on both sides,
   * and a dropped unit, if any, is dead.
   */
  lemma DeadDifference(k: Unit, dropped: Option<Unit>, a: multiset<Unit>, b: multiset<Unit>,
                       ms: multiset<Unit>, mp: multiset<Unit>)
    requires dropped.Some? ==> dropped.value.stability <= 0
    requires ms == (if dropped.Some? then multiset{dropped.value} else multiset{}) + (multiset{k} + a)
    requires mp == multiset{k} + b
    requires forall u: Unit :: u in a - b ==> u.stability <= 0
    ensures forall u: Unit :: u in ms - mp ==> u.stability <= 0
  {
    forall u | u in ms - mp ensures u.stability <= 0 {
      if dropped.None? || u != dropped.value {
        assert u in a - b;
      }
    }
  }

  /** Two dead units in a row: the second survives the pass. */
  lemma PruneSkipsAfterRemoved(a: Unit, b: Unit, rest: seq<Unit>)
    requires a.stability <= 0 && b.stability <= 0
    ensures PruneAsWritten([a, b] + rest) == [b] + PruneAsWritten(rest)
    ensures b in PruneAsWritten([a, b] + rest)
  {
    assert ([a, b] + rest)[2..] == rest;
  }

  /** The value serialize_state returns. */
  datatype Snapshot = Snapshot(
    sHealth: int, aHealth: int, sCore: int, aCore: int, sBits: int, aBits: int,
    sUnits: seq<Unit>, aUnits: seq<Unit>)

  class GameState {
    var sHealth: int
    var aHealth: int
    var sCore: int
    var aCore: int
    var sBits: int
    var aBits: int
    var sUnits: seq<Unit>
    var aUnits: seq<Unit>

    constructor ()
      ensures sHealth == INITIALE_HEALTH && aHealth == INITIALE_HEALTH
      ensures sCore == INITIALE_CORE && aCore == INITIALE_CORE
      ensures sBits == INITIALE_BITS && aBits == INITIALE_BITS
      ensures sUnits == [] && aUnits == []
    {
      sHealth, aHealth := INITIALE_HEALTH, INITIALE_HEALTH;
      sCore, aCore := INITIALE_CORE, INITIALE_CORE;
      sBits, aBits := INITIALE_BITS, INITIALE_BITS;
      sUnits, aUnits := [], [];
    }

    /** A deep copy of the counters and of both lists. */
    method SerializeState() returns (snap: Snapshot)
      ensures snap.sHealth == sHealth && snap.aHealth == aHealth
      ensures snap.sCore == sCore && snap.aCore == aCore
      ensures snap.sBits == sBits && snap.aBits == aBits
      ensures snap.sUnits == sUnits && snap.aUnits == aUnits
    {
      snap := Snapshot(sHealth, aHealth, sCore, aCore, sBits, aBits, sUnits, aUnits);
    }

    /** Validates a placement, then appends the new unit to its team's list. */
    method AddUnit(team: Team, stats: UnitStats, pos: Cell) returns (r: Outcome)
      modifies this
      ensures r == (match PlacementError(team, stats, pos)
                    case None => Pass
                    case Some(e) => Fail(e))
      ensures sHealth == old(sHealth) && aHealth == old(aHealth)
      ensures sCore == old(sCore) && aCore == old(aCore)
      ensures sBits == old(sBits) && aBits == old(aBits)
      ensures r.Fail? ==> sUnits == old(sUnits) && aUnits == old(aUnits)
      ensures r.Pass? && team == Friendly ==>
        sUnits == old(sUnits) + [NewUnit(team, stats, pos)] && aUnits == old(aUnits)
      ensures r.Pass? && team == Enemy ==>
        aUnits == old(aUnits) + [NewUnit(team, stats, pos)] && sUnits == old(sUnits)
    {
      var err := PlacementError(team, stats, pos);
      if err.Some? {
        return Fail(err.value);
      }
      var u := NewUnit(team, stats, pos);
      if team == Friendly {
        sUnits := sUnits + [u];
      } else {
        aUnits := aUnits + [u];
      }
      r := Pass;
    }

    /** remove_dead_units: the enemy list first, then the friendly list. */
    method RemoveDeadUnits()
      modifies this
      ensures aUnits == PruneAsWritten(old(aUnits))
      ensures sUnits == PruneAsWritten(old(sUnits))
      ensures sHealth == old(sHealth) && aHealth == old(aHealth)
      ensures sCore == old(sCore) && aCore == old(aCore)
      ensures sBits == old(sBits) && aBits == old(aBits)
    {
      aUnits := DeleteDeadWhileEnumerating(aUnits);
      sUnits := DeleteDeadWhileEnumerating(sUnits);
    }
  }

  /**
   * The `for i, u in enumerate(units): if u['stability'] <= 0: del units[i]`
   * loop, run on a list value.
   */
  method DeleteDeadWhileEnumerating(units: seq<Unit>) returns (r: seq<Unit>)
    ensures r == PruneAsWritten(units)
  {
    r := units;
    var i := 0;
    while i < |r|
      invariant 0 <= i <= |r|
      invariant PruneAsWritten(units) == r[..i] + PruneAsWritten(r[i..])
    {
      if r[i].stability <= 0 {
        if i + 1 == |r| {
          // deleting the last element ends the enumeration
          PruneDropLast(r, i);
          r := r[..i];
          break;
        }
        PruneDropSkip(r, i);
        r := r[..i] + r[i + 1..];
      } else {
        PruneKeep(r, i);
      }
      i := i + 1;
    }
    assert r == r[..|r|];
  }

  /** Deleting the dead last element leaves the examined prefix. */
  lemma PruneDropLast(r: seq<Unit>, i: nat)
    requires i + 1 == |r| && r[i].stability <= 0
    ensures r[..i] + PruneAsWritten(r[i..]) == r[..i]
  {
    assert r[i..] == [r[i]];
  }

  /** Deleting a dead element moves its successor into slot i, which the next step passes over. */
  lemma PruneDropSkip(r: seq<Unit>, i: nat)
    requires i + 1 < |r| && r[i].stability <= 0
    ensures var r' := r[..i] + r[i + 1..];
      r[..i] + PruneAsWritten(r[i..]) == r'[..i + 1] + PruneAsWritten(r'[i + 1..])
  {
    var r' := r[..i] + r[i + 1..];
    assert r[i..][2..] == r'[i + 1..];
    assert r'[..i + 1] == r[..i] + [r[i + 1]];
  }

  /** A live element is kept and the enumeration moves on. */
  lemma PruneKeep(r: seq<Unit>, i: nat)
    requires i < |r| && r[i].stability > 0
    ensures r[..i] + PruneAsWritten(r[i..]) == r[..i + 1] + PruneAsWritten(r[i + 1..])
  {
    assert r[i..][1..] == r[i + 1..];
    assert r[..i + 1] == r[..i] + [r[i]];
  }
}
