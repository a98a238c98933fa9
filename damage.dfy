/**
 * Targeting and damage of tc1/damage.py: the L1 distance matrix between the
 * two unit lists, the five-rule targeting comparator, the scan that picks
 * at most one target per attacker, and the stability loss it inflicts.
 */
module Damage {
  import opened Wrappers
  import opened State
  import opened Grid

  // ---- distances ----

  /** l1dist: the Manhattan distance of two cells. */
  function L1Dist(a: Cell, b: Cell): (d: int)
    ensures d >= 0
    ensures d == 0 <==> a == b
  {
    Abs(a.0 - b.0) + Abs(a.1 - b.1)
  }

  lemma L1DistSymmetric(a: Cell, b: Cell)
    ensures L1Dist(a, b) == L1Dist(b, a)
  {
  }

  /** A cell at distance strictly below the attacker's range can be shot at. */
  predicate InRange(att: Unit, cand: Unit)
  {
    L1Dist(att.pos, cand.pos) < att.range
  }

  // ---- the comparator (_targeting_priority) ----

  /** min(x, 30 - x): how far column x is from the nearer side edge. */
  function EdgeGap(x: int): (g: int)
    ensures g <= x && g <= 30 - x && (g == x || g == 30 - x)
  {
    if x < 30 - x then x else 30 - x
  }

  /**
   * _targeting_priority: does cand take priority over the current target
   * when att shoots? Rule 1 only promotes a mobile candidate over a
   * structure; rule 2 only rejects a farther candidate (its second test
   * repeats the first, so a closer one falls through to rule 3); rule 4
   * reads the attacker's target edge, which structures lack (KeyError).
   */
  function TargetingPriority(att: Unit, current: Option<Unit>, cand: Unit): (r: Result<bool>)
    ensures cand.stability <= 0 ==> r == Ok(false)
    ensures cand.stability > 0 && current.None? ==> r == Ok(true)
    ensures cand.stability > 0 && current.Some? && !IsMobile(current.value.id) && IsMobile(cand.id) ==>
      r == Ok(true)
    ensures r == Ok(true) ==> cand.stability > 0
    ensures r.Err? ==> r.error == MissingTarget && att.target.None? && current.Some?
  {
    if cand.stability <= 0 then Ok(false)
    else if current.None? then Ok(true)
    else
      var c := current.value;
      if c.id > 3 && cand.id < 4 then Ok(true)
      else
        var d1 := L1Dist(c.pos, att.pos);
        var d2 := L1Dist(cand.pos, att.pos);
        if d1 < d2 then Ok(false)
        else if d2 > d1 then Ok(true)
        else if c.stability < cand.stability then Ok(false)
        else if cand.stability < c.stability then Ok(true)
        else if att.target.None? then Err(MissingTarget)
        else if att.target.value in {2, 3} then
          if c.pos.1 < cand.pos.1 then Ok(false)
          else if c.pos.1 > cand.pos.1 then Ok(true)
          else Ok(!(EdgeGap(c.pos.0) < EdgeGap(cand.pos.0)))
        else
          if c.pos.1 < cand.pos.1 then Ok(true)
          else if c.pos.1 > cand.pos.1 then Ok(false)
          else Ok(!(EdgeGap(c.pos.0) < EdgeGap(cand.pos.0)))
  }

  /**
   * The comparator rule by rule, once the candidate is alive and the current
   * target is not a structure facing a mobile candidate: a farther candidate
   * loses; a closer or equally close one is judged on stability (lower wins);
   * at equal stability a friendly attacker (edge 2 or 3) prefers the smaller
   * y, any other attacker the larger y; at equal y the current target is
   * kept only when it is strictly nearer a side edge.
   */
  lemma ComparatorRules(att: Unit, c: Unit, cand: Unit)
    requires cand.stability > 0 && !(!IsMobile(c.id) && IsMobile(cand.id))
    ensures var r := TargetingPriority(att, Some(c), cand);
      var d1, d2 := L1Dist(c.pos, att.pos), L1Dist(cand.pos, att.pos);
      && (d1 < d2 ==> r == Ok(false))
      && (d2 <= d1 && cand.stability < c.stability ==> r == Ok(true))
      && (d2 <= d1 && cand.stability > c.stability ==> r == Ok(false))
      && (d2 <= d1 && cand.stability == c.stability ==>
            && (att.target.None? ==> r == Err(MissingTarget))
            && (att.target.Some? && att.target.value in {2, 3} && cand.pos.1 != c.pos.1 ==>
                  r == Ok(cand.pos.1 < c.pos.1))
            && (att.target.Some? && att.target.value !in {2, 3} && cand.pos.1 != c.pos.1 ==>
                  r == Ok(cand.pos.1 > c.pos.1))
            && (att.target.Some? && cand.pos.1 == c.pos.1 ==>
                  r == Ok(EdgeGap(cand.pos.0) <= EdgeGap(c.pos.0))))
  {
  }

  /**
   * Rule 1 only promotes: a structure candidate is not rejected against a
   * mobile target, and wins when it is closer and weaker.
   */
  lemma StructureCanDisplaceMobile()
    ensures var att := Unit(4, 0, 5, 1, 10, (10, 10), None, None, 0);
      var mobile := Unit(1, 1, 1, 1, 5, (10, 12), Some(2), None, 0);
      var structure := Unit(5, 0, 1, 1, 3, (10, 11), None, None, 0);
      TargetingPriority(att, Some(mobile), structure) == Ok(true)
  {
  }

  /**
   * Rule 2 only rejects: its second test repeats the first, so a closer
   * candidate that is stronger loses to the farther target.
   */
  lemma CloserStrongerCandidateLoses()
    ensures var att := Unit(1, 1, 5, 1, 10, (10, 10), Some(2), None, 0);
      var far := Unit(1, 1, 1, 1, 1, (10, 13), Some(4), None, 0);
      var near := Unit(1, 1, 1, 1, 5, (10, 11), Some(4), None, 0);
      TargetingPriority(att, Some(far), near) == Ok(false)
  {
  }

  // ---- the scan of _find_targets ----

  /** The unit a running target index denotes. */
  function Current(cands: seq<Unit>, t: Option<nat>): Option<Unit>
    requires t.Some? ==> t.value < |cands|
  {
    if t.None? then None else Some(cands[t.value])
  }

  /**
   * The running target of one attacker after the first k candidates: each
   * candidate in range replaces it when the comparator prefers it; a raising
   * comparator ends the scan.
   */
  function Scan(att: Unit, cands: seq<Unit>, k: nat): (r: Result<Option<nat>>)
    requires k <= |cands|
    ensures r.Ok? && r.value.Some? ==>
      r.value.value < k && InRange(att, cands[r.value.value]) && cands[r.value.value].stability > 0
    ensures r.Err? ==> r.error == MissingTarget && att.target.None?
  {
    if k == 0 then Ok(None)
    else
      match Scan(att, cands, k - 1)
      case Err(e) => Err(e)
      case Ok(t) =>
        if !InRange(att, cands[k - 1]) then Ok(t)
        else
          match TargetingPriority(att, Current(cands, t), cands[k - 1])
          case Err(e) => Err(e)
          case Ok(wins) => if wins then Ok(Some(k - 1)) else Ok(t)
  }

  /** Once the scan has raised, it stays raised. */
  lemma {:induction false} ScanErrorPersists(att: Unit, cands: seq<Unit>, i: nat, k: nat)
    requires i <= k <= |cands| && Scan(att, cands, i).Err?
    ensures Scan(att, cands, k) == Scan(att, cands, i)
    decreases k
  {
    if k > i {
      ScanErrorPersists(att, cands, i, k - 1);
    }
  }

  /** The attacker finds no target exactly when every candidate in range has stability <= 0. */
  lemma {:induction false} ScanNoneIff(att: Unit, cands: seq<Unit>, k: nat)
    requires k <= |cands| && Scan(att, cands, k).Ok?
    ensures Scan(att, cands, k).value.None? <==>
      forall j :: 0 <= j < k && InRange(att, cands[j]) ==> cands[j].stability <= 0
    decreases k
  {
    if k > 0 {
      ScanNoneIff(att, cands, k - 1);
    }
  }

  /**
   * The chosen target beat the running target when it was scanned, and no
   * later candidate in range beats it.
   */
  lemma {:induction false} ScanKeepsChoice(att: Unit, cands: seq<Unit>, k: nat, j: nat)
    requires k <= |cands| && Scan(att, cands, k) == Ok(Some(j))
    ensures Scan(att, cands, j).Ok?
    ensures TargetingPriority(att, Current(cands, Scan(att, cands, j).value), cands[j]) == Ok(true)
    ensures forall l :: j < l < k && InRange(att, cands[l]) ==>
      TargetingPriority(att, Some(cands[j]), cands[l]) == Ok(false)
    decreases k
  {
    if Scan(att, cands, k - 1) == Ok(Some(j)) {
      ScanKeepsChoice(att, cands, k - 1, j);
    } else {
      assert j == k - 1;
    }
  }

  /** An attacker with a target edge (every mobile unit) never makes the scan raise. */
  lemma MobileScanNeverRaises(att: Unit, cands: seq<Unit>, k: nat)
    requires k <= |cands| && att.target.Some?
    ensures Scan(att, cands, k).Ok?
  {
  }

  // ---- damage, interleaved with the scan ----

  /** A scrambler (id 3) does no damage to a structure. */
  predicate Shielded(att: Unit, u: Unit)
  {
    att.id == 3 && u.id > 3
  }

  /** The unit after att has shot it: stability down by dpf unless shielded; nothing else changes. */
  function Hit(att: Unit, u: Unit): (v: Unit)
    ensures v == u.(stability := v.stability)
    ensures Shielded(att, u) ==> v.stability == u.stability
    ensures !Shielded(att, u) ==> v.stability == u.stability - att.dpf
  {
    if Shielded(att, u) then u else u.(stability := u.stability - att.dpf)
  }

  /** The targets so far, the index each attacker chose, and the error that stopped the volley. */
  datatype Fire = Fire(targets: seq<Unit>, chosen: seq<Option<nat>>, failure: Option<Error>)

  /**
   * One more attacker's turn of the volley f: it scans the targets as the
   * earlier shots left them and shoots its choice; a stopped volley stays
   * stopped.
   */
  function Fired(att: Unit, f: Fire): (r: Fire)
    ensures |r.targets| == |f.targets|
    ensures forall j :: 0 <= j < |f.targets| ==> r.targets[j] == f.targets[j].(stability := r.targets[j].stability)
    ensures f.failure.Some? ==> r == f
    ensures f.failure.None? && r.failure.Some? ==>
      r.failure.value == MissingTarget && r.chosen == f.chosen && r.targets == f.targets
    ensures r.failure.None? ==> |r.chosen| == |f.chosen| + 1 && r.chosen == f.chosen + [r.chosen[|f.chosen|]]
    ensures r.failure.None? && r.chosen[|f.chosen|].Some? ==>
      var t := r.chosen[|f.chosen|].value;
      t < |f.targets| && InRange(att, f.targets[t]) && f.targets[t].stability > 0
  {
    if f.failure.Some? then f
    else
      match Scan(att, f.targets, |f.targets|)
      case Err(e) => Fire(f.targets, f.chosen, Some(e))
      case Ok(None) => Fire(f.targets, f.chosen + [None], None)
      case Ok(Some(j)) => Fire(f.targets[j := Hit(att, f.targets[j])], f.chosen + [Some(j)], None)
  }

  /**
   * The first i attackers of one side, in list order, each scanning the
   * opposing list as the earlier shots left it and then shooting its
   * target (the generator of _find_targets consumed by __call__).
   */
  function Volley(attackers: seq<Unit>, targets: seq<Unit>, i: nat): (f: Fire)
    requires i <= |attackers|
    ensures |f.targets| == |targets| && |f.chosen| <= i
    ensures f.failure.None? ==> |f.chosen| == i
    ensures f.failure.Some? ==> f.failure.value == MissingTarget
    ensures forall j :: 0 <= j < |targets| ==> f.targets[j] == targets[j].(stability := f.targets[j].stability)
    ensures forall k :: 0 <= k < |f.chosen| && f.chosen[k].Some? ==>
      f.chosen[k].value < |targets| && InRange(attackers[k], targets[f.chosen[k].value])
  {
    if i == 0 then Fire(targets, [], None)
    else
      var g := Volley(attackers, targets, i - 1);
      var f := Fired(attackers[i - 1], g);
      assert forall k :: 0 <= k < |g.chosen| ==> f.chosen[k] == g.chosen[k];
      f
  }

  /** The damage the first |chosen| attackers deal to target j. */
  function Dealt(attackers: seq<Unit>, target: Unit, chosen: seq<Option<nat>>, j: nat): int
    requires |chosen| <= |attackers|
  {
    if chosen == [] then 0
    else
      var k := |chosen| - 1;
      Dealt(attackers, target, chosen[..k], j)
        + (if chosen[k] == Some(j) && !Shielded(attackers[k], target) then attackers[k].dpf else 0)
  }

  /** A unit no attacker chose takes no damage. */
  lemma {:induction false} DealtUnchosen(attackers: seq<Unit>, target: Unit, chosen: seq<Option<nat>>, j: nat)
    requires |chosen| <= |attackers| && forall k :: 0 <= k < |chosen| ==> chosen[k] != Some(j)
    ensures Dealt(attackers, target, chosen, j) == 0
  {
    if chosen != [] {
      DealtUnchosen(attackers, target, chosen[..|chosen| - 1], j);
    }
  }

  /** Target j of the volley f has lost exactly the damage dealt to it. */
  predicate Accounted(attackers: seq<Unit>, targets: seq<Unit>, f: Fire, j: nat)
    requires |f.chosen| <= |attackers| && j < |targets| && j < |f.targets|
  {
    f.targets[j].stability == targets[j].stability - Dealt(attackers, targets[j], f.chosen, j)
  }

  /** The damage account of target j carries over the turn of attacker i - 1. */
  lemma FiredKeepsAccount(attackers: seq<Unit>, targets: seq<Unit>, f: Fire, i: nat, j: nat)
    requires 0 < i <= |attackers| && j < |targets| == |f.targets|
    requires |f.chosen| <= i - 1 && (f.failure.None? ==> |f.chosen| == i - 1)
    requires f.targets[j].id == targets[j].id && Accounted(attackers, targets, f, j)
    ensures Accounted(attackers, targets, Fired(attackers[i - 1], f), j)
  {
    var r := Fired(attackers[i - 1], f);
    if r.failure.None? {
      assert r.chosen[..|r.chosen| - 1] == f.chosen;
    }
  }

  /**
   * After a volley each target's stability is its stability before, less
   * the dpf of every attacker that chose it and is not a scrambler facing a
   * structure.
   */
  lemma {:induction false} VolleyDamage(attackers: seq<Unit>, targets: seq<Unit>, i: nat, j: nat)
    requires i <= |attackers| && j < |targets|
    ensures Accounted(attackers, targets, Volley(attackers, targets, i), j)
    decreases i
  {
    if i > 0 {
      VolleyDamage(attackers, targets, i - 1, j);
      FiredKeepsAccount(attackers, targets, Volley(attackers, targets, i - 1), i, j);
    }
  }

  /** A target nobody chose leaves the volley unchanged. */
  lemma VolleyUnchosen(attackers: seq<Unit>, targets: seq<Unit>, i: nat, j: nat)
    requires i <= |attackers| && j < |targets|
    ensures var f := Volley(attackers, targets, i);
      (forall k :: 0 <= k < |f.chosen| ==> f.chosen[k] != Some(j)) ==> f.targets[j] == targets[j]
  {
    var f := Volley(attackers, targets, i);
    if forall k :: 0 <= k < |f.chosen| ==> f.chosen[k] != Some(j) {
      VolleyDamage(attackers, targets, i, j);
      DealtUnchosen(attackers, targets[j], f.chosen, j);
    }
  }

  /**
   * An attacker sees the shots of those before it: the target it chooses
   * still had positive stability after the earlier attackers fired.
   */
  lemma ChosenWasAlive(attackers: seq<Unit>, targets: seq<Unit>, i: nat)
    requires 0 < i <= |attackers| && Volley(attackers, targets, i).failure.None?
    ensures var f := Volley(attackers, targets, i);
      f.chosen[i - 1].Some? ==>
        Volley(attackers, targets, i - 1).targets[f.chosen[i - 1].value].stability > 0
  {
  }

  /** A shot of non-negative damage never raises a stability. */
  lemma FiredNeverHeals(att: Unit, f: Fire, j: nat)
    requires att.dpf >= 0 && j < |f.targets|
    ensures Fired(att, f).targets[j].stability <= f.targets[j].stability
  {
  }

  /**
   * With non-negative damage, a target whose stability is at most 0 after
   * the first k attackers is still at most 0 after any later one.
   */
  lemma {:induction false} DeadStaysDead(attackers: seq<Unit>, targets: seq<Unit>, k: nat, l: nat, j: nat)
    requires k <= l <= |attackers| && j < |targets|
    requires forall m :: 0 <= m < |attackers| ==> attackers[m].dpf >= 0
    requires Volley(attackers, targets, k).targets[j].stability <= 0
    ensures Volley(attackers, targets, l).targets[j].stability <= 0
    decreases l - k
  {
    if l > k {
      var g := Volley(attackers, targets, k);
      FiredNeverHeals(attackers[k], g, j);
      assert Volley(attackers, targets, k + 1).targets[j] == Fired(attackers[k], g).targets[j];
      DeadStaysDead(attackers, targets, k + 1, l, j);
    }
  }

  /**
   * A target killed by the first k attackers is chosen by none of the later
   * ones in the same volley.
   */
  lemma KilledTargetIsNotChosenLater(attackers: seq<Unit>, targets: seq<Unit>, k: nat, l: nat, j: nat)
    requires k <= l < |attackers| && j < |targets|
    requires forall m :: 0 <= m < |attackers| ==> attackers[m].dpf >= 0
    requires Volley(attackers, targets, k).targets[j].stability <= 0
    requires Volley(attackers, targets, l + 1).failure.None?
    ensures Volley(attackers, targets, l + 1).chosen[l] != Some(j)
  {
    DeadStaysDead(attackers, targets, k, l, j);
    var g := Volley(attackers, targets, l);
    assert Volley(attackers, targets, l + 1) == Fired(attackers[l], g);
    DeadIsNotChosen(attackers[l], g, j);
  }

  /** One attacker's turn never chooses a target whose stability is at most 0. */
  lemma DeadIsNotChosen(att: Unit, g: Fire, j: nat)
    requires j < |g.targets| && g.targets[j].stability <= 0
    ensures Fired(att, g).failure.None? ==> Fired(att, g).chosen[|g.chosen|] != Some(j)
  {
  }

  /**
   * Interleaving: two attackers in range of a target with 1 stability; the
   * first kills it, so the second finds no target and its damage is not
   * wasted on it.
   */
  lemma KilledTargetIsNotChosenAgain()
    ensures var a1 := Unit(1, 1, 3, 1, 5, (10, 5), Some(2), None, 0);
      var a2 := Unit(1, 1, 3, 2, 5, (11, 5), Some(2), None, 0);
      var t := Unit(1, 1, 3, 1, 1, (10, 6), Some(4), None, 0);
      var f := Volley([a1, a2], [t], 2);
      f.chosen == [Some(0), None] && f.targets == [t.(stability := 0)] && f.failure.None?
  {
    var a1 := Unit(1, 1, 3, 1, 5, (10, 5), Some(2), None, 0);
    var a2 := Unit(1, 1, 3, 2, 5, (11, 5), Some(2), None, 0);
    var t := Unit(1, 1, 3, 1, 1, (10, 6), Some(4), None, 0);
    assert Scan(a1, [t], 1) == Ok(Some(0));
    assert Volley([a1, a2], [t], 1) == Fire([t.(stability := 0)], [Some(0)], None);
    assert Scan(a2, [t.(stability := 0)], 1) == Ok(None);
  }

  /** Attackers that all have a target edge never stop the volley. */
  lemma {:induction false} VolleyOfMobileNeverFails(attackers: seq<Unit>, targets: seq<Unit>, i: nat)
    requires i <= |attackers| && forall k :: 0 <= k < |attackers| ==> attackers[k].target.Some?
    ensures Volley(attackers, targets, i).failure.None?
  {
    if i > 0 {
      VolleyOfMobileNeverFails(attackers, targets, i - 1);
      var f := Volley(attackers, targets, i - 1);
      MobileScanNeverRaises(attackers[i - 1], f.targets, |f.targets|);
    }
  }

  // ---- DamageEngine.__call__ ----

  /** Both lists after the damage phase, and the error that stopped it, if any. */
  datatype Battle = Battle(sUnits: seq<Unit>, aUnits: seq<Unit>, failure: Option<Error>)

  /**
   * All friendly units fire at the enemy list, then all enemy units (as the
   * friendly volley left them) fire at the friendly list.
   */
  function Combat(s: seq<Unit>, a: seq<Unit>): (b: Battle)
    ensures |b.sUnits| == |s| && |b.aUnits| == |a|
    ensures forall j :: 0 <= j < |s| ==> b.sUnits[j] == s[j].(stability := b.sUnits[j].stability)
    ensures forall j :: 0 <= j < |a| ==> b.aUnits[j] == a[j].(stability := b.aUnits[j].stability)
  {
    var f := Volley(s, a, |s|);
    if f.failure.Some? then Battle(s, f.targets, f.failure)
    else
      var g := Volley(f.targets, s, |f.targets|);
      Battle(g.targets, f.targets, g.failure)
  }

  /**
   * A completed damage phase takes from each unit exactly the dpf of the
   * opposing units that chose it (scramblers do not hurt structures).
   */
  lemma CombatDamage(s: seq<Unit>, a: seq<Unit>)
    requires Combat(s, a).failure.None?
    ensures var f := Volley(s, a, |s|);
      var g := Volley(f.targets, s, |a|);
      && f.failure.None? && g.failure.None?
      && |f.chosen| == |s| && |g.chosen| == |a|
      && (forall j :: 0 <= j < |a| ==>
            Combat(s, a).aUnits[j].stability == a[j].stability - Dealt(s, a[j], f.chosen, j))
      && (forall j :: 0 <= j < |s| ==>
            Combat(s, a).sUnits[j].stability == s[j].stability - Dealt(f.targets, s[j], g.chosen, j))
  {
    var f := Volley(s, a, |s|);
    var g := Volley(f.targets, s, |a|);
    forall j | 0 <= j < |a|
      ensures Combat(s, a).aUnits[j].stability == a[j].stability - Dealt(s, a[j], f.chosen, j)
    {
      VolleyDamage(s, a, |s|, j);
    }
    forall j | 0 <= j < |s|
      ensures Combat(s, a).sUnits[j].stability == s[j].stability - Dealt(f.targets, s[j], g.chosen, j)
    {
      VolleyDamage(f.targets, s, |a|, j);
    }
  }

  // ---- the imperative engine ----

  /** _get_distance_matrix: dmat[i, j] is the L1 distance from friendly unit i to enemy unit j. */
  method DistanceMatrix(s: seq<Unit>, a: seq<Unit>) returns (dmat: array2<int>)
    ensures fresh(dmat) && dmat.Length0 == |s| && dmat.Length1 == |a|
    ensures forall i, j :: 0 <= i < |s| && 0 <= j < |a| ==> dmat[i, j] == L1Dist(s[i].pos, a[j].pos)
  {
    dmat := new int[|s|, |a|];
    for i := 0 to |s|
      invariant forall i', j :: 0 <= i' < i && 0 <= j < |a| ==> dmat[i', j] == L1Dist(s[i'].pos, a[j].pos)
    {
      for j := 0 to |a|
        invariant forall i', j' :: 0 <= i' < i && 0 <= j' < |a| ==> dmat[i', j'] == L1Dist(s[i'].pos, a[j'].pos)
        invariant forall j' :: 0 <= j' < j ==> dmat[i, j'] == L1Dist(s[i].pos, a[j'].pos)
      {
        dmat[i, j] := L1Dist(s[i].pos, a[j].pos);
      }
    }
  }

  /** The matrix entry between attacker `row` and candidate j: dmat[row, j] for a friendly attacker, dmat[j, row] for an enemy one. */
  function Entry(dmat: array2<int>, row: nat, j: nat, friendly: bool): int
    requires if friendly then row < dmat.Length0 && j < dmat.Length1 else j < dmat.Length0 && row < dmat.Length1
    reads dmat
  {
    if friendly then dmat[row, j] else dmat[j, row]
  }

  /** dmat holds the distances from att to every candidate, in the orientation of its side. */
  ghost predicate RowOf(dmat: array2<int>, row: nat, friendly: bool, att: Unit, cands: seq<Unit>)
    reads dmat
  {
    && (if friendly then row < dmat.Length0 && |cands| == dmat.Length1 else |cands| == dmat.Length0 && row < dmat.Length1)
    && forall j :: 0 <= j < |cands| ==> Entry(dmat, row, j, friendly) == L1Dist(att.pos, cands[j].pos)
  }

  /** One attacker's pass of _find_targets: the running target over the opposing list. */
  method FindTarget(att: Unit, cands: seq<Unit>, dmat: array2<int>, row: nat, friendly: bool)
    returns (r: Result<Option<nat>>)
    requires RowOf(dmat, row, friendly, att, cands)
    ensures r == Scan(att, cands, |cands|)
  {
    var target: Option<nat> := None;
    for j := 0 to |cands|
      invariant Scan(att, cands, j) == Ok(target)
    {
      if Entry(dmat, row, j, friendly) < att.range {
        var wins := TargetingPriority(att, Current(cands, target), cands[j]);
        if wins.Err? {
          ScanErrorPersists(att, cands, j + 1, |cands|);
          return Err(wins.error);
        }
        if wins.value {
          target := Some(j);
        }
      }
    }
    r := Ok(target);
  }

  /** dmat is the matrix of _get_distance_matrix, seen from the attackers' side. */
  ghost predicate MatrixFor(dmat: array2<int>, friendly: bool, attackers: seq<Unit>, targets: seq<Unit>)
    reads dmat
  {
    && (if friendly then dmat.Length0 == |attackers| && dmat.Length1 == |targets|
        else dmat.Length0 == |targets| && dmat.Length1 == |attackers|)
    && forall i, j :: 0 <= i < |attackers| && 0 <= j < |targets| ==>
         Entry(dmat, i, j, friendly) == L1Dist(attackers[i].pos, targets[j].pos)
  }

  /** A volley leaves the targets where they stand, so the matrix still describes it. */
  lemma MatrixStillFor(dmat: array2<int>, friendly: bool, attackers: seq<Unit>, targets: seq<Unit>, i: nat)
    requires MatrixFor(dmat, friendly, attackers, targets) && i < |attackers|
    ensures RowOf(dmat, i, friendly, attackers[i], Volley(attackers, targets, i).targets)
  {
    var ts := Volley(attackers, targets, i).targets;
    forall j | 0 <= j < |ts|
      ensures Entry(dmat, i, j, friendly) == L1Dist(attackers[i].pos, ts[j].pos)
    {
      assert ts[j].pos == targets[j].pos;
    }
  }

  /** A volley stopped by an error stays stopped: the later attackers do not fire. */
  lemma {:induction false} VolleyErrorPersists(attackers: seq<Unit>, targets: seq<Unit>, i: nat, k: nat)
    requires i <= k <= |attackers| && Volley(attackers, targets, i).failure.Some?
    ensures Volley(attackers, targets, k) == Volley(attackers, targets, i)
    decreases k - i
  {
    if k > i {
      var g := Volley(attackers, targets, i);
      assert Volley(attackers, targets, i + 1) == Fired(attackers[i], g) == g;
      VolleyErrorPersists(attackers, targets, i + 1, k);
    }
  }

  /** One more attacker of the volley: it chooses t on the targets as they stand, then shoots it. */
  lemma VolleyStep(attackers: seq<Unit>, targets: seq<Unit>, i: nat, ts: seq<Unit>, chosen: seq<Option<nat>>)
    requires i < |attackers| && Volley(attackers, targets, i) == Fire(ts, chosen, None)
    ensures var r := Scan(attackers[i], ts, |ts|);
      Volley(attackers, targets, i + 1) ==
        match r
        case Err(e) => Fire(ts, chosen, Some(e))
        case Ok(None) => Fire(ts, chosen + [None], None)
        case Ok(Some(j)) => Fire(ts[j := Hit(attackers[i], ts[j])], chosen + [Some(j)], None)
  {
  }

  /**
   * The loop over the pairs one side's attackers yield: each attacker
   * chooses on the targets as the earlier shots left them, then shoots.
   */
  method Shoot(attackers: seq<Unit>, targets: seq<Unit>, dmat: array2<int>, friendly: bool) returns (f: Fire)
    requires MatrixFor(dmat, friendly, attackers, targets)
    ensures f == Volley(attackers, targets, |attackers|)
  {
    var ts, chosen := targets, [];
    for i := 0 to |attackers|
      invariant Volley(attackers, targets, i) == Fire(ts, chosen, None)
    {
      var r := ShootOne(attackers, targets, dmat, friendly, i, ts, chosen);
      if r.failure.Some? {
        VolleyErrorPersists(attackers, targets, i + 1, |attackers|);
        return r;
      }
      ts, chosen := r.targets, r.chosen;
    }
    f := Fire(ts, chosen, None);
  }

  /** One yielded pair of the loop: attacker i finds its target on the list as it stands, then shoots it. */
  method ShootOne(attackers: seq<Unit>, targets: seq<Unit>, dmat: array2<int>, friendly: bool, i: nat,
                  ts: seq<Unit>, chosen: seq<Option<nat>>) returns (r: Fire)
    requires MatrixFor(dmat, friendly, attackers, targets) && i < |attackers|
    requires Volley(attackers, targets, i) == Fire(ts, chosen, None)
    ensures r == Volley(attackers, targets, i + 1)
  {
    MatrixStillFor(dmat, friendly, attackers, targets, i);
    var t := FindTarget(attackers[i], ts, dmat, i, friendly);
    VolleyStep(attackers, targets, i, ts, chosen);
    if t.Err? {
      return Fire(ts, chosen, Some(t.error));
    }
    var ts' := ShootAt(attackers[i], ts, t.value);
    r := Fire(ts', chosen + [t.value], None);
  }

  /** The body of __call__'s loop for one yielded pair: skip None and a scrambler facing a structure, else lower the target's stability by dpf. */
  method ShootAt(att: Unit, ts: seq<Unit>, t: Option<nat>) returns (ts': seq<Unit>)
    requires t.Some? ==> t.value < |ts|
    ensures ts' == if t.None? then ts else ts[t.value := Hit(att, ts[t.value])]
  {
    ts' := ts;
    if t.None? {
      return;
    }
    var j := t.value;
    if att.id == 3 && ts[j].id > 3 {
      return;
    }
    ts' := ts[j := ts[j].(stability := ts[j].stability - att.dpf)];
  }

  /**
   * __call__: the distance matrix once, then every friendly unit and every
   * enemy unit in turn chooses its target and shoots it before the next
   * one chooses. A raising comparator stops the phase with the shots so far
   * applied. Only stabilities change.
   */
  method DamageEngineCall(state: GameState) returns (r: Outcome)
    modifies state
    ensures var b := Combat(old(state.sUnits), old(state.aUnits));
      && state.sUnits == b.sUnits && state.aUnits == b.aUnits
      && r == (if b.failure.None? then Pass else Fail(b.failure.value))
    ensures state.sHealth == old(state.sHealth) && state.aHealth == old(state.aHealth)
    ensures state.sCore == old(state.sCore) && state.aCore == old(state.aCore)
    ensures state.sBits == old(state.sBits) && state.aBits == old(state.aBits)
  {
    var s0, a0 := state.sUnits, state.aUnits;
    var dmat := DistanceMatrix(s0, a0);
    var f := Shoot(s0, a0, dmat, true);
    if f.failure.Some? {
      state.aUnits := f.targets;
      return Fail(f.failure.value);
    }
    assert MatrixFor(dmat, false, f.targets, s0) by {
      forall i, j | 0 <= i < |f.targets| && 0 <= j < |s0|
        ensures Entry(dmat, i, j, false) == L1Dist(f.targets[i].pos, s0[j].pos)
      {
        assert f.targets[i].pos == a0[i].pos;
        L1DistSymmetric(f.targets[i].pos, s0[j].pos);
      }
    }
    var g := Shoot(f.targets, s0, dmat, false);
    state.aUnits := f.targets;
    state.sUnits := g.targets;
    r := if g.failure.None? then Pass else Fail(g.failure.value);
  }
}
