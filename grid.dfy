/**
 * The static geometry of tc1/mapgraph.py: the 30x30 padded grid, the carved
 * diamond of playable cells, the two templates built by _make_grid and the
 * four 14-cell borders of get_frontier_nodes.
 */
module Grid {
  import opened Wrappers
  import opened State

  const PADDED_GRID_SIZE: int := 30
  /** The "unreachable" sentinel of every distance field. */
  const INTMAX: int := 30 * 30 + 1
  /** The number of playable cells. */
  const PLAYABLE_CELLS: int := 420

  function Abs(x: int): int { if x < 0 then -x else x }

  predicate InBox(x: int, y: int)
  {
    0 <= x < PADDED_GRID_SIZE && 0 <= y < PADDED_GRID_SIZE
  }

  /** The playable diamond. */
  predicate Playable(x: int, y: int)
  {
    || (1 <= x <= 14 && 15 - x <= y <= 14 + x)
    || (15 <= x <= 28 && x - 14 <= y <= 43 - x)
  }

  /** The four neighbours of a playable cell are inside the padded grid. */
  lemma PlayableNeighboursInBox(x: int, y: int)
    requires Playable(x, y)
    ensures 1 <= x <= 28 && 1 <= y <= 28
    ensures InBox(x - 1, y) && InBox(x + 1, y) && InBox(x, y - 1) && InBox(x, y + 1)
  {
  }

  /** _grid_template: 0 on playable cells, -1 elsewhere. */
  function TemplateValue(x: int, y: int): int
  {
    if Playable(x, y) then 0 else -1
  }

  /** _dtemplate: INTMAX on playable cells, -1 elsewhere. */
  function DTemplateValue(x: int, y: int): int
  {
    if Playable(x, y) then INTMAX else -1
  }

  predicate Dims(a: array2<int>)
  {
    a.Length0 == PADDED_GRID_SIZE && a.Length1 == PADDED_GRID_SIZE
  }

  ghost predicate IsGridTemplate(g: array2<int>)
    reads g
  {
    Dims(g) && forall x, y :: InBox(x, y) ==> g[x, y] == TemplateValue(x, y)
  }

  ghost predicate IsDTemplate(d: array2<int>)
    reads d
  {
    Dims(d) && forall x, y :: InBox(x, y) ==> d[x, y] == DTemplateValue(x, y)
  }

  /** The cells carved by the first i iterations of the outer loop of _make_grid. */
  predicate Carved(i: int, x: int, y: int)
  {
    || (x < i && 15 - x <= y < 15 + x)
    || (29 - x < i && 15 - (29 - x) <= y < 15 + (29 - x))
  }

  /** _make_grid: start from -1 everywhere and carve rows i and 29-i for i in 0..14. */
  method MakeGrid() returns (gridTemplate: array2<int>, dTemplate: array2<int>)
    ensures fresh(gridTemplate) && fresh(dTemplate) && gridTemplate != dTemplate
    ensures IsGridTemplate(gridTemplate) && IsDTemplate(dTemplate)
  {
    gridTemplate := new int[PADDED_GRID_SIZE, PADDED_GRID_SIZE]((x, y) => -1);
    dTemplate := new int[PADDED_GRID_SIZE, PADDED_GRID_SIZE]((x, y) => -1);
    for i := 0 to 15
      invariant forall x, y :: InBox(x, y) ==>
        gridTemplate[x, y] == (if Carved(i, x, y) then 0 else -1)
      invariant forall x, y :: InBox(x, y) ==>
        dTemplate[x, y] == (if Carved(i, x, y) then INTMAX else -1)
    {
      for j := 15 - i to 15 + i
        invariant forall x, y :: InBox(x, y) ==>
          gridTemplate[x, y] ==
            (if Carved(i, x, y) || ((x == i || x == 29 - i) && 15 - i <= y < j) then 0 else -1)
        invariant forall x, y :: InBox(x, y) ==>
          dTemplate[x, y] ==
            (if Carved(i, x, y) || ((x == i || x == 29 - i) && 15 - i <= y < j) then INTMAX else -1)
      {
        gridTemplate[i, j] := 0;
        gridTemplate[30 - i - 1, j] := 0;
        dTemplate[i, j] := INTMAX;
        dTemplate[30 - i - 1, j] := INTMAX;
      }
    }
  }

  /** Which diagonal line of the diamond a border lies on. */
  predicate OnEdge(id: int, c: Cell)
  {
    match id
    case 4 => c.0 + c.1 == 15 && 1 <= c.1 <= 14
    case 5 => c.0 - c.1 == 14 && 1 <= c.1 <= 14
    case 3 => c.1 - c.0 == 14 && 15 <= c.1 <= 28
    case 2 => c.0 + c.1 == 43 && 15 <= c.1 <= 28
    case _ => false
  }

  /**
   * get_frontier_nodes: friendly borders 4 and 5 (y <= 14), enemy borders
   * 3 and 2 (y >= 15); any other id raises ValueError.
   */
  function FrontierNodes(id: int): (r: Result<seq<Cell>>)
    ensures r.Ok? <==> id in {2, 3, 4, 5}
    ensures r.Err? ==> r.error == WrongBorderId
    ensures r.Ok? ==> |r.value| == 14
    ensures r.Ok? ==> forall k :: 0 <= k < |r.value| ==>
      Playable(r.value[k].0, r.value[k].1) && OnEdge(id, r.value[k])
    ensures r.Ok? ==> forall k1, k2 :: 0 <= k1 < k2 < |r.value| ==> r.value[k1] != r.value[k2]
  {
    if id == 4 then Ok(seq(14, k => (14 - k, k + 1)))
    else if id == 5 then Ok(seq(14, k => (15 + k, k + 1)))
    else if id == 3 then Ok(seq(14, k => (k + 1, 15 + k)))
    else if id == 2 then Ok(seq(14, k => (28 - k, 15 + k)))
    else Err(WrongBorderId)
  }

  /** GameState's border lists are the frontiers of the side they belong to. */
  lemma BorderListsAreFrontiers()
    ensures FriendlyBorders() == FrontierNodes(4).value + FrontierNodes(5).value
    ensures EnnemyBorders() == FrontierNodes(3).value + FrontierNodes(2).value
  {
  }

  /**
   * A mobile unit placed on its own border is sent to the diagonally
   * opposite border: on the other half (y) and on the other side (x).
   */
  lemma TargetEdgeIsOpposite(team: Team, pos: Cell)
    requires pos in OwnBorders(team)
    ensures FrontierNodes(TargetEdge(team, pos)).Ok?
    ensures var edge := FrontierNodes(TargetEdge(team, pos)).value;
      forall k :: 0 <= k < |edge| ==>
        (if team == Friendly then edge[k].1 >= 15 else edge[k].1 <= 14)
        && (pos.0 < 15 <==> edge[k].0 >= 15)
  {
    FriendlyBorderCells(pos);
    EnnemyBorderCells(pos);
  }
}
