/** Tiled::State (src/Tiled/State.cpp, Tiled/State.h): the 2D tiled
    solver's output grid. Each output tile holds the tile it was set to, if
    any, the set of tile IDs it may still become and whether it may be
    cleared again. Setting a tile narrows its unset neighbours to the tiles
    whose facing edge matches; a contradiction either clears the area around
    it and recomputes the cells touched, or ends the run. */
module TiledState {
  import opened Common
  import opened WfcMath
  import opened Vectors
  import opened Arrays
  import opened TiledPermutator
  import opened TiledInput

  // ---------------------------------------------------------------------
  // Output tiles and the grid's geometry

  /** State::OutputTile. */
  datatype OutputTile = OutputTile(Value: Option<nat>, PossibleTiles: set<nat>, IsDeletable: bool)
  {
    predicate IsSet() { Value.Some? }
  }

  /** A default-constructed OutputTile, as a fresh Array2D buffer holds. */
  const DefaultTile := OutputTile(None, {}, true)

  /** The output array, by position. */
  type Board = map<Vector2i, OutputTile>

  /** The output's size and whether each axis wraps around. */
  datatype Geometry = Geometry(Width: int, Height: int, PeriodicX: bool, PeriodicY: bool)
  {
    predicate InGrid(p: Vector2i)
    {
      0 <= p.x < Width && 0 <= p.y < Height
    }

    /** The wrap-around of Filter is defined: a periodic axis is not empty. */
    predicate Filterable()
    {
      (PeriodicX ==> Width > 0) && (PeriodicY ==> Height > 0)
    }

    /** State::Filter: each periodic axis wrapped into the grid. */
    function Filter(p: Vector2i): Vector2i
      requires Filterable()
    {
      Vector2i(if PeriodicX then PositiveModulo(p.x, Width) else p.x,
               if PeriodicY then PositiveModulo(p.y, Height) else p.y)
    }

    /** State::IsValidPos as written: the lower bounds of both axes are
        waived by PeriodicX, the upper bounds of both by PeriodicY. */
    predicate IsValidPosAsWritten(p: Vector2i)
    {
      (PeriodicX || (p.x >= 0 && p.y >= 0)) && (PeriodicY || (p.x < Width && p.y < Height))
    }

    /** IsValidPos as intended: each axis is in range unless it wraps. */
    predicate IsValidPos(p: Vector2i)
    {
      (PeriodicX || 0 <= p.x < Width) && (PeriodicY || 0 <= p.y < Height)
    }
  }

  /** The board has exactly the grid's positions. */
  ghost predicate Covers(g: Geometry, out: Board)
  {
    forall p :: p in out <==> g.InGrid(p)
  }

  /** The positions of a w x h grid. */
  function GridPoints(w: int, h: int): (r: set<Vector2i>)
    ensures forall p :: p in r <==> 0 <= p.x < w && 0 <= p.y < h
  {
    Points2Exactly(FromSize2(Vector2i(w, h)));
    set p | p in Points2(FromSize2(Vector2i(w, h)))
  }

  /** Filter lands in the grid along every periodic axis and leaves the
      other axes alone; a position already in the grid is kept. */
  lemma FilterMeaning(g: Geometry, p: Vector2i)
    requires g.Filterable()
    ensures g.PeriodicX ==> 0 <= g.Filter(p).x < g.Width && g.Filter(p).x % g.Width == p.x % g.Width
    ensures !g.PeriodicX ==> g.Filter(p).x == p.x
    ensures g.PeriodicY ==> 0 <= g.Filter(p).y < g.Height && g.Filter(p).y % g.Height == p.y % g.Height
    ensures !g.PeriodicY ==> g.Filter(p).y == p.y
    ensures g.InGrid(p) ==> g.Filter(p) == p
  {
    if g.PeriodicX { InRangeMod(g.Filter(p).x, g.Width); }
    if g.PeriodicY { InRangeMod(g.Filter(p).y, g.Height); }
  }

  /** The corrected IsValidPos holds exactly for the positions that Filter
      brings into the grid. */
  lemma IsValidPosMeaning(g: Geometry, p: Vector2i)
    requires g.Filterable()
    ensures g.IsValidPos(p) <==> g.InGrid(g.Filter(p))
  {
    FilterMeaning(g, p);
  }

  /** With both axes wrapping, or neither, the source's IsValidPos is the
      intended one. */
  lemma IsValidPosAsWrittenAgrees(g: Geometry, p: Vector2i)
    requires g.PeriodicX == g.PeriodicY
    ensures g.IsValidPosAsWritten(p) <==> g.IsValidPos(p)
  {
  }

  /** With only x wrapping, the source's IsValidPos accepts the position
      above the top row, which Filter leaves outside the grid: the
      neighbour lookup of RecalculateTileChances then reads outside the
      output array. */
  lemma IsValidPosAsWrittenAdmitsOutside()
    ensures Geometry(2, 2, true, false).IsValidPosAsWritten(Vector2i(0, -1))
    ensures !Geometry(2, 2, true, false).InGrid(Geometry(2, 2, true, false).Filter(Vector2i(0, -1)))
  {
    assert Geometry(2, 2, true, false).Filter(Vector2i(0, -1)) == Vector2i(0, -1);
  }

  /** With only x wrapping, the source's IsValidPos also rejects a position
      that wraps into the grid: on a 2 x 1 grid the right-hand neighbour
      (2, 0) of (1, 0) is refused, so its tile is ignored, while the
      intended check accepts it and Filter brings it to (0, 0). */
  lemma IsValidPosAsWrittenDropsWrapped()
    ensures !Geometry(2, 1, true, false).IsValidPosAsWritten(Vector2i(2, 0))
    ensures Geometry(2, 1, true, false).IsValidPos(Vector2i(2, 0))
    ensures Geometry(2, 1, true, false).Filter(Vector2i(2, 0)) == Vector2i(0, 0)
  {
    assert PositiveModulo(2, 2) == 0;
  }

  /** The tile IDs 0 .. n-1: allTileIDs once Reset has run. */
  function IDsBelow(n: nat): (r: set<nat>)
    ensures forall t: nat :: t in r <==> t < n
  {
    if n == 0 then {} else IDsBelow(n - 1) + {n - 1}
  }

  // ---------------------------------------------------------------------
  // RecalculateTileChances

  /** GetOppositeEdge. */
  function OppositeEdge(e: nat): (r: nat)
    requires e < 4
    ensures r < 4
  {
    if e == MIN_X then MAX_X else if e == MAX_X then MIN_X else if e == MIN_Y then MAX_Y else MIN_Y
  }

  /** The opposite edge faces the opposite way. */
  lemma OppositeEdgeFaces(e: nat)
    requires e < 4
    ensures EdgeDirection(OppositeEdge(e)) == Vector2i(0, 0).Minus(EdgeDirection(e))
  {
    var d, o := EdgeDirection(e), EdgeDirection(OppositeEdge(e));
    assert o.x == -d.x && o.y == -d.y;
  }

  /** GetOppositeEdge is an involution without fixed points. */
  lemma OppositeEdgeInvolution(e: nat)
    requires e < 4
    ensures OppositeEdge(OppositeEdge(e)) == e && OppositeEdge(e) != e
  {
  }

  /** The set values of a board are tile IDs. */
  ghost predicate ValuesBelow(out: Board, n: nat)
  {
    forall p :: p in out && out[p].IsSet() ==> out[p].Value.value < n
  }

  /** The ID the neighbour of p across edge e is set to, if that neighbour
      exists (under the corrected IsValidPos) and is set. */
  function NeighborValue(g: Geometry, out: Board, p: Vector2i, e: nat): Option<nat>
    requires g.Filterable() && Covers(g, out) && e < 4
  {
    var n := p.Plus(EdgeDirection(e));
    IsValidPosMeaning(g, n);
    if g.IsValidPos(n) && out[g.Filter(n)].IsSet() then out[g.Filter(n)].Value else None
  }

  /** Tile t may sit at p as far as the neighbour across edge e is
      concerned: that neighbour is missing or unset, or t's edge e has the
      edge type of the neighbour's opposite edge. */
  predicate FitsAt(tiles: seq<Tile>, g: Geometry, out: Board, p: Vector2i, e: nat, t: nat)
    requires g.Filterable() && Covers(g, out) && e < 4 && ValuesBelow(out, |tiles|)
  {
    match NeighborValue(g, out, p, e)
    case None => true
    case Some(v) => t < |tiles| && tiles[t].Edges[e] == tiles[v].Edges[OppositeEdge(e)]
  }

  /** The tiles the neighbour across edge e still allows at p: all of them
      without a set neighbour, else the tiles GetTilesWithEdge returns for
      the neighbour's facing edge. */
  function Allowed(tiles: seq<Tile>, g: Geometry, out: Board, p: Vector2i, e: nat, all: set<nat>): set<nat>
    requires g.Filterable() && Covers(g, out) && e < 4 && ValuesBelow(out, |tiles|)
  {
    match NeighborValue(g, out, p, e)
    case None => all
    case Some(v) => TilesWith(tiles, EdgeInstance(tiles[v].Edges[OppositeEdge(e)], e))
  }

  /** The chances after the first d edges: all IDs, narrowed by each of
      those edges in turn. */
  function ChancesUpTo(tiles: seq<Tile>, g: Geometry, out: Board, p: Vector2i, all: set<nat>, d: nat): set<nat>
    requires g.Filterable() && Covers(g, out) && d <= 4 && ValuesBelow(out, |tiles|)
  {
    if d == 0 then all
    else ChancesUpTo(tiles, g, out, p, all, d - 1) * Allowed(tiles, g, out, p, d - 1, all)
  }

  /** What RecalculateTileChances leaves in an unset output tile. */
  function Chances(tiles: seq<Tile>, g: Geometry, out: Board, p: Vector2i, all: set<nat>): set<nat>
    requires g.Filterable() && Covers(g, out) && ValuesBelow(out, |tiles|)
  {
    ChancesUpTo(tiles, g, out, p, all, EdgeCount())
  }

  /** The number of edges of a tile (the four Directions of a square).
      Chances passes this named constant rather than the literal 4 because a
      literal bound lets the verifier unfold ChancesUpTo eagerly in every
      proof that mentions Chances, which makes those proofs far slower. */
  function EdgeCount(): (n: nat)
    ensures n == 4
  {
    4
  }

  lemma {:induction false} ChancesUpToHas(tiles: seq<Tile>, g: Geometry, out: Board, p: Vector2i,
                                          all: set<nat>, d: nat, t: nat)
    requires g.Filterable() && Covers(g, out) && d <= 4 && ValuesBelow(out, |tiles|)
    ensures t in ChancesUpTo(tiles, g, out, p, all, d) <==>
              t in all && forall e :: 0 <= e < d ==> FitsAt(tiles, g, out, p, e, t)
    decreases d
  {
    if d > 0 {
      ChancesUpToHas(tiles, g, out, p, all, d - 1, t);
      var e := d - 1;
      assert t in all ==> (t in Allowed(tiles, g, out, p, e, all) <==> FitsAt(tiles, g, out, p, e, t)) by {
        match NeighborValue(g, out, p, e)
        case None =>
        case Some(v) =>
      }
    }
  }

  /** A tile ID stays possible exactly when it is among all the IDs and its
      edges match the facing edge of every set neighbour. */
  lemma ChancesMeaning(tiles: seq<Tile>, g: Geometry, out: Board, p: Vector2i, all: set<nat>, t: nat)
    requires g.Filterable() && Covers(g, out) && ValuesBelow(out, |tiles|)
    ensures t in Chances(tiles, g, out, p, all) <==>
              t in all && forall e :: 0 <= e < 4 ==> FitsAt(tiles, g, out, p, e, t)
  {
    ChancesUpToHas(tiles, g, out, p, all, 4, t);
  }

  /** Two boards with the same set values give the same chances: the
      possible sets of other tiles do not matter. */
  ghost predicate SameValues(out: Board, out': Board)
  {
    out.Keys == out'.Keys && forall p :: p in out ==> out[p].Value == out'[p].Value
  }

  lemma {:induction false} ChancesUpToAgree(tiles: seq<Tile>, g: Geometry, out: Board, out': Board, p: Vector2i,
                                            all: set<nat>, d: nat)
    requires g.Filterable() && Covers(g, out) && Covers(g, out') && d <= 4
    requires ValuesBelow(out, |tiles|) && ValuesBelow(out', |tiles|) && SameValues(out, out')
    ensures ChancesUpTo(tiles, g, out, p, all, d) == ChancesUpTo(tiles, g, out', p, all, d)
    decreases d
  {
    if d > 0 {
      ChancesUpToAgree(tiles, g, out, out', p, all, d - 1);
      assert NeighborValue(g, out, p, d - 1) == NeighborValue(g, out', p, d - 1);
    }
  }

  lemma ChancesAgree(tiles: seq<Tile>, g: Geometry, out: Board, out': Board, p: Vector2i, all: set<nat>)
    requires g.Filterable() && Covers(g, out) && Covers(g, out')
    requires ValuesBelow(out, |tiles|) && ValuesBelow(out', |tiles|) && SameValues(out, out')
    ensures Chances(tiles, g, out, p, all) == Chances(tiles, g, out', p, all)
  {
    ChancesUpToAgree(tiles, g, out, out', p, all, 4);
  }

  // ---------------------------------------------------------------------
  // ClearArea

  /** The square of radius c around center, clamped into the grid along
      each axis that does not wrap. */
  function ClearRegion(g: Geometry, center: Vector2i, c: nat): Region2i
  {
    var lo := Vector2i(center.x - c, center.y - c);
    var hi := Vector2i(center.x + c + 1, center.y + c + 1);
    Region2i(Vector2i(if g.PeriodicX then lo.x else Clamp(lo.x, 0, g.Width - 1),
                      if g.PeriodicY then lo.y else Clamp(lo.y, 0, g.Height - 1)),
             Vector2i(if g.PeriodicX then hi.x else Clamp(hi.x, 1, g.Width),
                      if g.PeriodicY then hi.y else Clamp(hi.y, 1, g.Height)))
  }

  /** Around a cell of the grid, the region spans radius c on each wrapping
      axis and is cut at the grid's edges on the others; it holds the
      center, so it is never empty. */
  lemma ClearRegionMeaning(g: Geometry, center: Vector2i, c: nat)
    requires g.InGrid(center)
    ensures g.PeriodicX ==> (ClearRegion(g, center, c).MinInclusive.x == center.x - c &&
                             ClearRegion(g, center, c).MaxExclusive.x == center.x + c + 1)
    ensures !g.PeriodicX ==> (ClearRegion(g, center, c).MinInclusive.x == Max(0, center.x - c) &&
                              ClearRegion(g, center, c).MaxExclusive.x == Min(g.Width, center.x + c + 1))
    ensures g.PeriodicY ==> (ClearRegion(g, center, c).MinInclusive.y == center.y - c &&
                             ClearRegion(g, center, c).MaxExclusive.y == center.y + c + 1)
    ensures !g.PeriodicY ==> (ClearRegion(g, center, c).MinInclusive.y == Max(0, center.y - c) &&
                              ClearRegion(g, center, c).MaxExclusive.y == Min(g.Height, center.y + c + 1))
    ensures ClearRegion(g, center, c).Contains(center)
  {
  }

  /** Every position of the region, once filtered, is a cell of the grid. */
  lemma ClearRegionInGrid(g: Geometry, center: Vector2i, c: nat, p: Vector2i)
    requires g.InGrid(center) && ClearRegion(g, center, c).Contains(p)
    ensures g.Filterable() && g.InGrid(g.Filter(p))
  {
    FilterMeaning(g, p);
  }

  /** The output and the affected positions while ClearArea runs. */
  datatype Clearing = Clearing(out: Board, affected: set<Vector2i>)

  /** One position of the clearing loop: a position not yet affected is
      cleared and becomes affected when its tile is deletable; a tile that
      is not deletable is left alone and is not affected (the source inserts
      and then erases it). */
  function ClearVisit(g: Geometry, all: set<nat>, s: Clearing, pos: Vector2i): (r: Clearing)
    requires g.Filterable() && Covers(g, s.out) && g.InGrid(g.Filter(pos))
    ensures Covers(g, r.out)
  {
    var q := g.Filter(pos);
    if q in s.affected then s
    else if s.out[q].IsDeletable then
      Clearing(s.out[q := s.out[q].(Value := None, PossibleTiles := all)], s.affected + {q})
    else s
  }

  /** The positions, filtered, all lie in the grid. */
  ghost predicate FiltersIn(g: Geometry, pts: seq<Vector2i>)
    requires g.Filterable()
  {
    forall i :: 0 <= i < |pts| ==> g.InGrid(g.Filter(pts[i]))
  }

  /** The clearing loop over pts, in order. */
  function ClearAll(g: Geometry, all: set<nat>, s: Clearing, pts: seq<Vector2i>): (r: Clearing)
    requires g.Filterable() && Covers(g, s.out) && FiltersIn(g, pts)
    ensures Covers(g, r.out)
    decreases |pts|
  {
    if |pts| == 0 then s
    else ClearVisit(g, all, ClearAll(g, all, s, pts[..|pts| - 1]), pts[|pts| - 1])
  }

  /** Some position of pts filters to q. */
  predicate Hits(g: Geometry, pts: seq<Vector2i>, q: Vector2i)
    requires g.Filterable()
    decreases |pts|
  {
    |pts| > 0 && (Hits(g, pts[..|pts| - 1], q) || g.Filter(pts[|pts| - 1]) == q)
  }

  lemma {:induction false} HitsMeaning(g: Geometry, pts: seq<Vector2i>, q: Vector2i)
    requires g.Filterable()
    ensures Hits(g, pts, q) <==> exists i :: 0 <= i < |pts| && g.Filter(pts[i]) == q
    decreases |pts|
  {
    if |pts| > 0 {
      var front := pts[..|pts| - 1];
      HitsMeaning(g, front, q);
      if Hits(g, front, q) {
        var i :| 0 <= i < |front| && g.Filter(front[i]) == q;
        assert pts[i] == front[i];
      }
      if exists i :: 0 <= i < |pts| && g.Filter(pts[i]) == q {
        var i :| 0 <= i < |pts| && g.Filter(pts[i]) == q;
        if i < |front| {
          assert front[i] == pts[i];
        }
      }
    }
  }

  /** What the clearing loop does to one cell: a cell some position filters
      to, not affected before and deletable, is cleared to all IDs (its
      IsDeletable kept) and becomes affected; every other cell, and the
      affected state of every other position, stays as it was. */
  lemma {:induction false} ClearAllHas(g: Geometry, all: set<nat>, s: Clearing, pts: seq<Vector2i>, q: Vector2i)
    requires g.Filterable() && Covers(g, s.out) && FiltersIn(g, pts)
    ensures q in ClearAll(g, all, s, pts).affected <==>
              q in s.affected || (Hits(g, pts, q) && q in s.out && s.out[q].IsDeletable)
    ensures q in s.out ==>
              ClearAll(g, all, s, pts).out[q] ==
                if q !in s.affected && Hits(g, pts, q) && s.out[q].IsDeletable
                then s.out[q].(Value := None, PossibleTiles := all) else s.out[q]
    decreases |pts|
  {
    if |pts| > 0 {
      var front := pts[..|pts| - 1];
      assert FiltersIn(g, front) by {
        forall i | 0 <= i < |front| ensures g.InGrid(g.Filter(front[i])) {
          assert front[i] == pts[i];
        }
      }
      ClearAllHas(g, all, s, front, q);
    }
  }

  /** Whether ClearArea adds the neighbours beyond each side of the region:
      always on a wrapping axis, else only when the region stops short of
      that edge of the grid. */
  datatype Sides = Sides(minX: bool, maxX: bool, minY: bool, maxY: bool)

  function AllowedSides(g: Geometry, r: Region2i): Sides
  {
    Sides(g.PeriodicX || r.MinInclusive.x > 0, g.PeriodicX || r.MaxExclusive.x < g.Width,
          g.PeriodicY || r.MinInclusive.y > 0, g.PeriodicY || r.MaxExclusive.y < g.Height)
  }

  /** minEdge and maxEdge: the corners just outside the region. */
  function MinEdge(g: Geometry, r: Region2i): Vector2i
    requires g.Filterable()
  {
    g.Filter(r.MinInclusive.Minus(Vector2i(1, 1)))
  }

  function MaxEdge(g: Geometry, r: Region2i): Vector2i
    requires g.Filterable()
  {
    g.Filter(r.MaxExclusive)
  }

  /** The left and right neighbours the first loop adds for row
      MinInclusive.y + k. */
  function SideCells(g: Geometry, r: Region2i, k: nat): set<Vector2i>
    requires g.Filterable()
  {
    var a := AllowedSides(g, r);
    var y := r.MinInclusive.y + k;
    (if a.minX then {g.Filter(Vector2i(MinEdge(g, r).x, y))} else {})
      + (if a.maxX then {g.Filter(Vector2i(MaxEdge(g, r).x, y))} else {})
  }

  /** The top and bottom neighbours the second loop adds for column
      MinInclusive.x + k. */
  function EndCells(g: Geometry, r: Region2i, k: nat): set<Vector2i>
    requires g.Filterable()
  {
    var a := AllowedSides(g, r);
    var x := r.MinInclusive.x + k;
    (if a.minY then {g.Filter(Vector2i(x, MinEdge(g, r).y))} else {})
      + (if a.maxY then {g.Filter(Vector2i(x, MaxEdge(g, r).y))} else {})
  }

  /** The cells the first loop adds over its first n rows. */
  function SideCellsUpTo(g: Geometry, r: Region2i, n: nat): set<Vector2i>
    requires g.Filterable()
  {
    if n == 0 then {} else SideCellsUpTo(g, r, n - 1) + SideCells(g, r, n - 1)
  }

  /** The cells the second loop adds over its first n columns. */
  function EndCellsUpTo(g: Geometry, r: Region2i, n: nat): set<Vector2i>
    requires g.Filterable()
  {
    if n == 0 then {} else EndCellsUpTo(g, r, n - 1) + EndCells(g, r, n - 1)
  }

  /** The neighbours of a non-empty region that ClearArea adds. */
  function Border(g: Geometry, r: Region2i): set<Vector2i>
    requires g.Filterable() && r.GetSize().x >= 0 && r.GetSize().y >= 0
  {
    SideCellsUpTo(g, r, r.GetSize().y) + EndCellsUpTo(g, r, r.GetSize().x)
  }

  /** What the border loops need of a region: on an axis that does not
      wrap, its rows (or columns) lie in the grid, and a side that is
      allowed has its outside neighbour line in the grid. */
  ghost predicate BorderFits(g: Geometry, r: Region2i)
    requires g.Filterable()
  {
    var a := AllowedSides(g, r);
    (!g.PeriodicX ==> 0 <= r.MinInclusive.x && r.MaxExclusive.x <= g.Width) &&
    (!g.PeriodicY ==> 0 <= r.MinInclusive.y && r.MaxExclusive.y <= g.Height) &&
    (!g.PeriodicX && a.minX ==> 0 <= MinEdge(g, r).x < g.Width) &&
    (!g.PeriodicX && a.maxX ==> 0 <= MaxEdge(g, r).x < g.Width) &&
    (!g.PeriodicY && a.minY ==> 0 <= MinEdge(g, r).y < g.Height) &&
    (!g.PeriodicY && a.maxY ==> 0 <= MaxEdge(g, r).y < g.Height)
  }

  lemma ClearRegionFits(g: Geometry, center: Vector2i, c: nat)
    requires g.InGrid(center)
    ensures g.Filterable() && BorderFits(g, ClearRegion(g, center, c))
  {
    var r := ClearRegion(g, center, c);
    FilterMeaning(g, r.MinInclusive.Minus(Vector2i(1, 1)));
    FilterMeaning(g, r.MaxExclusive);
  }

  /** A position whose coordinates on the non-wrapping axes are in range
      filters into the grid. */
  lemma FilterIntoGrid(g: Geometry, x: int, y: int)
    requires g.Filterable()
    requires (!g.PeriodicX ==> 0 <= x < g.Width) && (!g.PeriodicY ==> 0 <= y < g.Height)
    ensures g.InGrid(g.Filter(Vector2i(x, y)))
  {
    FilterMeaning(g, Vector2i(x, y));
  }

  lemma {:induction false} SideCellsInGrid(g: Geometry, r: Region2i, n: nat, q: Vector2i)
    requires g.Filterable() && BorderFits(g, r)
    requires n <= r.GetSize().y
    requires q in SideCellsUpTo(g, r, n)
    ensures g.InGrid(q)
    decreases n
  {
    if q in SideCellsUpTo(g, r, n - 1) {
      SideCellsInGrid(g, r, n - 1, q);
    } else {
      var y := r.MinInclusive.y + (n - 1);
      if q == g.Filter(Vector2i(MinEdge(g, r).x, y)) {
        FilterIntoGrid(g, MinEdge(g, r).x, y);
      } else {
        FilterIntoGrid(g, MaxEdge(g, r).x, y);
      }
    }
  }

  lemma {:induction false} EndCellsInGrid(g: Geometry, r: Region2i, n: nat, q: Vector2i)
    requires g.Filterable() && BorderFits(g, r)
    requires n <= r.GetSize().x
    requires q in EndCellsUpTo(g, r, n)
    ensures g.InGrid(q)
    decreases n
  {
    if q in EndCellsUpTo(g, r, n - 1) {
      EndCellsInGrid(g, r, n - 1, q);
    } else {
      var x := r.MinInclusive.x + (n - 1);
      if q == g.Filter(Vector2i(x, MinEdge(g, r).y)) {
        FilterIntoGrid(g, x, MinEdge(g, r).y);
      } else {
        FilterIntoGrid(g, x, MaxEdge(g, r).y);
      }
    }
  }

  /** The neighbours ClearArea adds are cells of the grid: on an axis that
      does not wrap, a side beyond the grid's edge contributes nothing. */
  lemma BorderInGrid(g: Geometry, center: Vector2i, c: nat, q: Vector2i)
    requires g.InGrid(center)
    requires q in Border(g, ClearRegion(g, center, c))
    ensures g.InGrid(q)
  {
    var r := ClearRegion(g, center, c);
    ClearRegionFits(g, center, c);
    if q in SideCellsUpTo(g, r, r.GetSize().y) {
      SideCellsInGrid(g, r, r.GetSize().y, q);
    } else {
      EndCellsInGrid(g, r, r.GetSize().x, q);
    }
  }

  // ---------------------------------------------------------------------
  // GetBestTiles

  /** The smallest number of possible tiles among the unset cells of pts,
      if there is an unset one. */
  function MinEntropy(out: Board, pts: seq<Vector2i>): Option<nat>
    requires forall i :: 0 <= i < |pts| ==> pts[i] in out
    decreases |pts|
  {
    if |pts| == 0 then None
    else
      var m := MinEntropy(out, pts[..|pts| - 1]);
      var cell := out[pts[|pts| - 1]];
      if cell.IsSet() then m
      else if m.None? || |cell.PossibleTiles| < m.value then Some(|cell.PossibleTiles|)
      else m
  }

  /** The unset cells of pts with n possible tiles, in the order of pts. */
  function WithEntropy(out: Board, pts: seq<Vector2i>, n: nat): seq<Vector2i>
    requires forall i :: 0 <= i < |pts| ==> pts[i] in out
    decreases |pts|
  {
    if |pts| == 0 then []
    else
      var cell := out[pts[|pts| - 1]];
      WithEntropy(out, pts[..|pts| - 1], n) + (if !cell.IsSet() && |cell.PossibleTiles| == n then [pts[|pts| - 1]] else [])
  }

  /** What GetBestTiles returns for a scan over pts. */
  function Best(out: Board, pts: seq<Vector2i>): seq<Vector2i>
    requires forall i :: 0 <= i < |pts| ==> pts[i] in out
  {
    match MinEntropy(out, pts)
    case None => []
    case Some(m) => WithEntropy(out, pts, m)
  }

  /** Every unset cell of pts has at least MinEntropy possible tiles. */
  lemma {:induction false} MinEntropyBound(out: Board, pts: seq<Vector2i>, i: nat)
    requires forall k :: 0 <= k < |pts| ==> pts[k] in out
    requires i < |pts| && !out[pts[i]].IsSet()
    ensures MinEntropy(out, pts).Some? && MinEntropy(out, pts).value <= |out[pts[i]].PossibleTiles|
    decreases |pts|
  {
    var front := pts[..|pts| - 1];
    if i < |front| {
      assert front[i] == pts[i];
      MinEntropyBound(out, front, i);
    }
  }

  /** MinEntropy, when there is one, is the size of some unset cell of pts. */
  lemma {:induction false} MinEntropyAttained(out: Board, pts: seq<Vector2i>)
    requires forall k :: 0 <= k < |pts| ==> pts[k] in out
    ensures MinEntropy(out, pts).Some? ==>
              exists i :: 0 <= i < |pts| && !out[pts[i]].IsSet() && |out[pts[i]].PossibleTiles| == MinEntropy(out, pts).value
    decreases |pts|
  {
    if |pts| > 0 {
      var front := pts[..|pts| - 1];
      MinEntropyAttained(out, front);
      if MinEntropy(out, pts) == MinEntropy(out, front) && MinEntropy(out, front).Some? {
        var i :| 0 <= i < |front| && !out[front[i]].IsSet() && |out[front[i]].PossibleTiles| == MinEntropy(out, front).value;
        assert pts[i] == front[i];
      }
    }
  }

  /** The cells WithEntropy lists are exactly the unset cells of pts with n
      possible tiles. */
  lemma {:induction false} WithEntropyHas(out: Board, pts: seq<Vector2i>, n: nat, q: Vector2i)
    requires forall k :: 0 <= k < |pts| ==> pts[k] in out
    ensures q in WithEntropy(out, pts, n) <==> q in pts && !out[q].IsSet() && |out[q].PossibleTiles| == n
    decreases |pts|
  {
    if |pts| > 0 {
      var front := pts[..|pts| - 1];
      WithEntropyHas(out, front, n, q);
      assert pts == front + [pts[|pts| - 1]];
    }
  }

  /** GetBestTiles lists exactly the unset cells with the fewest possible
      tiles among the unset cells scanned. */
  lemma BestMeaning(out: Board, pts: seq<Vector2i>, q: Vector2i)
    requires forall k :: 0 <= k < |pts| ==> pts[k] in out
    ensures q in Best(out, pts) <==>
              q in pts && !out[q].IsSet() &&
              forall i :: 0 <= i < |pts| && !out[pts[i]].IsSet() ==> |out[q].PossibleTiles| <= |out[pts[i]].PossibleTiles|
  {
    MinEntropyAttained(out, pts);
    if q in pts && !out[q].IsSet() {
      var j :| 0 <= j < |pts| && pts[j] == q;
      MinEntropyBound(out, pts, j);
      var m := MinEntropy(out, pts).value;
      WithEntropyHas(out, pts, m, q);
      var i :| 0 <= i < |pts| && !out[pts[i]].IsSet() && |out[pts[i]].PossibleTiles| == m;
      forall k | 0 <= k < |pts| && !out[pts[k]].IsSet()
        ensures m <= |out[pts[k]].PossibleTiles|
      {
        MinEntropyBound(out, pts, k);
      }
    } else if MinEntropy(out, pts).Some? {
      WithEntropyHas(out, pts, MinEntropy(out, pts).value, q);
    }
  }

  /** GetBestTiles returns nothing exactly when every cell scanned is set. */
  lemma BestEmpty(out: Board, pts: seq<Vector2i>)
    requires forall k :: 0 <= k < |pts| ==> pts[k] in out
    ensures Best(out, pts) == [] <==> forall i :: 0 <= i < |pts| ==> out[pts[i]].IsSet()
  {
    MinEntropyAttained(out, pts);
    if MinEntropy(out, pts).Some? {
      var i :| 0 <= i < |pts| && !out[pts[i]].IsSet() && |out[pts[i]].PossibleTiles| == MinEntropy(out, pts).value;
      WithEntropyHas(out, pts, MinEntropy(out, pts).value, pts[i]);
    } else {
      forall i | 0 <= i < |pts| ensures out[pts[i]].IsSet() {
        if !out[pts[i]].IsSet() { MinEntropyBound(out, pts, i); }
      }
    }
  }

  /** Every listed cell is one of pts and unset. */
  lemma BestListed(out: Board, pts: seq<Vector2i>)
    requires forall k :: 0 <= k < |pts| ==> pts[k] in out
    ensures forall i :: 0 <= i < |Best(out, pts)| ==> Best(out, pts)[i] in pts && !out[Best(out, pts)[i]].IsSet()
  {
    forall i | 0 <= i < |Best(out, pts)|
      ensures Best(out, pts)[i] in pts && !out[Best(out, pts)[i]].IsSet()
    {
      BestMeaning(out, pts, Best(out, pts)[i]);
    }
  }

  /** Every listed cell has the same number of possible tiles. */
  lemma BestShareEntropy(out: Board, pts: seq<Vector2i>, k: nat)
    requires forall i :: 0 <= i < |pts| ==> pts[i] in out
    requires k < |Best(out, pts)|
    ensures MinEntropy(out, pts).Some? && Best(out, pts)[k] in out
    ensures |out[Best(out, pts)[k]].PossibleTiles| == MinEntropy(out, pts).value
  {
    WithEntropyHas(out, pts, MinEntropy(out, pts).value, Best(out, pts)[k]);
  }

  // ---------------------------------------------------------------------
  // The outcomes of the state-changing operations, as functions of the board

  /** No unset cell scanned has fewer possible tiles than the minimum. */
  lemma {:induction false} WithEntropyBelow(out: Board, pts: seq<Vector2i>, n: nat)
    requires forall i :: 0 <= i < |pts| ==> pts[i] in out
    requires MinEntropy(out, pts).None? || n < MinEntropy(out, pts).value
    ensures WithEntropy(out, pts, n) == []
    decreases |pts|
  {
    if |pts| > 0 {
      WithEntropyBelow(out, pts[..|pts| - 1], n);
    }
  }

  /** RecalculateTileChances at a cell: an unset cell gets the tiles its
      set neighbours allow; a set cell keeps everything. */
  function Recalc(tiles: seq<Tile>, g: Geometry, out: Board, q: Vector2i, all: set<nat>): (r: Board)
    requires g.Filterable() && Covers(g, out) && ValuesBelow(out, |tiles|) && g.InGrid(q)
    ensures Covers(g, r) && SameValues(out, r) && ValuesBelow(r, |tiles|)
  {
    if out[q].IsSet() then out
    else out[q := out[q].(PossibleTiles := Chances(tiles, g, out, q, all))]
  }

  /** out is base with the cells of done recalculated, in any order: since
      recalculating changes no set value, each recalculated unset cell holds
      the chances base gives it. */
  ghost predicate RecalculatedAt(tiles: seq<Tile>, g: Geometry, base: Board, out: Board, done: set<Vector2i>, all: set<nat>)
    requires g.Filterable() && Covers(g, base) && ValuesBelow(base, |tiles|)
  {
    Covers(g, out) && SameValues(base, out) && ValuesBelow(out, |tiles|) &&
    forall q :: q in out ==>
      out[q] == if q in done && !base[q].IsSet() then base[q].(PossibleTiles := Chances(tiles, g, base, q, all))
                else base[q]
  }

  /** Recalculating one more cell extends what has been recalculated. */
  lemma RecalcStep(tiles: seq<Tile>, g: Geometry, base: Board, out: Board, done: set<Vector2i>, all: set<nat>, q: Vector2i)
    requires g.Filterable() && Covers(g, base) && ValuesBelow(base, |tiles|) && g.InGrid(q)
    requires RecalculatedAt(tiles, g, base, out, done, all)
    ensures RecalculatedAt(tiles, g, base, Recalc(tiles, g, out, q, all), done + {q}, all)
  {
    ChancesAgree(tiles, g, base, out, q, all);
  }

  /** Nothing recalculated yet. */
  lemma RecalcNone(tiles: seq<Tile>, g: Geometry, base: Board, all: set<nat>)
    requires g.Filterable() && Covers(g, base) && ValuesBelow(base, |tiles|)
    ensures RecalculatedAt(tiles, g, base, base, {}, all)
  {
  }

  /** Whether SetTile updates the neighbour across side e: the side wraps
      or is not at the grid's edge. */
  predicate SideAllowed(g: Geometry, p: Vector2i, e: nat)
  {
    if e == MIN_X then g.PeriodicX || p.x > 0
    else if e == MIN_Y then g.PeriodicY || p.y > 0
    else if e == MAX_X then g.PeriodicX || p.x < g.Width - 1
    else e == MAX_Y && (g.PeriodicY || p.y < g.Height - 1)
  }

  /** The neighbour across side e that SetTile updates, if any. */
  function SideCell(g: Geometry, p: Vector2i, e: nat): set<Vector2i>
    requires g.Filterable() && e < 4
  {
    if SideAllowed(g, p, e) then {g.Filter(p.Plus(EdgeDirection(e)))} else {}
  }

  /** The neighbours SetTile recalculates, side by side. */
  function Touched(g: Geometry, p: Vector2i): set<Vector2i>
    requires g.Filterable()
  {
    SideCell(g, p, MIN_X) + SideCell(g, p, MIN_Y) + SideCell(g, p, MAX_X) + SideCell(g, p, MAX_Y)
  }

  /** An updated neighbour is a cell of the grid. */
  lemma SideInGrid(g: Geometry, p: Vector2i, e: nat)
    requires g.InGrid(p) && e < 4 && SideAllowed(g, p, e)
    ensures g.Filterable() && g.InGrid(g.Filter(p.Plus(EdgeDirection(e))))
  {
    FilterMeaning(g, p.Plus(EdgeDirection(e)));
  }

  /** The board SetTile leaves: the cell set to value alone, and its
      touched neighbours recalculated against it. */
  ghost predicate SetOutcome(tiles: seq<Tile>, g: Geometry, old_: Board, out: Board, p: Vector2i, value: nat,
                             permanent: bool, all: set<nat>)
    requires g.Filterable() && Covers(g, old_) && ValuesBelow(old_, |tiles|) && g.InGrid(p) && value < |tiles|
  {
    RecalculatedAt(tiles, g, old_[p := OutputTile(Some(value), {value}, !permanent)], out, Touched(g, p), all)
  }

  /** ClearArea: the clearing loop over the region, then its neighbours
      added to the affected positions. */
  function ClearAreaOf(g: Geometry, all: set<nat>, c: nat, s: Clearing, center: Vector2i): (r: Clearing)
    requires g.InGrid(center) && Covers(g, s.out)
    ensures Covers(g, r.out)
  {
    var region := ClearRegion(g, center, c);
    ClearRegionFilters(g, center, c);
    var cleared := ClearAll(g, all, s, Points2(region));
    Clearing(cleared.out, cleared.affected + Border(g, region))
  }

  /** The region is not empty and every position of it filters into the
      grid. */
  lemma ClearRegionFilters(g: Geometry, center: Vector2i, c: nat)
    requires g.InGrid(center)
    ensures g.Filterable()
    ensures ClearRegion(g, center, c).GetSize().x > 0 && ClearRegion(g, center, c).GetSize().y > 0
    ensures FiltersIn(g, Points2(ClearRegion(g, center, c)))
  {
    var region := ClearRegion(g, center, c);
    Points2Exactly(region);
    ClearRegionMeaning(g, center, c);
    forall i | 0 <= i < |Points2(region)| ensures g.InGrid(g.Filter(Points2(region)[i])) {
      ClearRegionInGrid(g, center, c, Points2(region)[i]);
    }
  }

  /** ClearArea around each center in turn, sharing the affected set. */
  function ClearMany(g: Geometry, all: set<nat>, c: nat, s: Clearing, centers: seq<Vector2i>): (r: Clearing)
    requires Covers(g, s.out) && forall i :: 0 <= i < |centers| ==> g.InGrid(centers[i])
    ensures Covers(g, r.out)
    decreases |centers|
  {
    if |centers| == 0 then s
    else ClearAreaOf(g, all, c, ClearMany(g, all, c, s, centers[..|centers| - 1]), centers[|centers| - 1])
  }

  /** All positions listed lie in the grid. */
  ghost predicate AllInGrid(g: Geometry, ps: set<Vector2i>)
  {
    forall q :: q in ps ==> g.InGrid(q)
  }

  /** ClearArea keeps the affected positions in the grid. */
  lemma ClearAreaInGrid(g: Geometry, all: set<nat>, c: nat, s: Clearing, center: Vector2i)
    requires g.InGrid(center) && Covers(g, s.out) && AllInGrid(g, s.affected)
    ensures AllInGrid(g, ClearAreaOf(g, all, c, s, center).affected)
  {
    var region := ClearRegion(g, center, c);
    ClearRegionFilters(g, center, c);
    forall q | q in ClearAreaOf(g, all, c, s, center).affected ensures g.InGrid(q) {
      if q in Border(g, region) {
        BorderInGrid(g, center, c, q);
      } else {
        ClearAllHas(g, all, s, Points2(region), q);
      }
    }
  }

  // ---------------------------------------------------------------------
  // Reset keeps Array2D's buffer when the element count is unchanged

  /** The cell found at p of a w x h grid when the old oldW x oldH buffer,
      holding as many elements, is kept: the one stored at the same buffer
      index. */
  function KeptCell(out: Board, g: Geometry, w: int, h: int, p: Vector2i): OutputTile
    requires g.Width >= 0 && g.Height >= 0 && Covers(g, out)
    requires 0 <= p.x < w && 0 <= p.y < h && w * h == g.Width * g.Height
  {
    LocationOfIndex2(w, h, p.x, p.y);
    IndexOfLocation2(g.Width, g.Height, Index2(w, p.x, p.y));
    out[Location2(g.Width, Index2(w, p.x, p.y))]
  }

  /** The output after Array2D::Reset to w x h: the old buffer
      reinterpreted when it holds as many elements, else fresh default
      tiles. */
  function Rebuffered(out: Board, g: Geometry, w: int, h: int): (r: Board)
    requires g.Width >= 0 && g.Height >= 0 && Covers(g, out)
    ensures forall p :: p in r <==> 0 <= p.x < w && 0 <= p.y < h
  {
    map p | p in GridPoints(w, h) ::
      if w * h == g.Width * g.Height then KeptCell(out, g, w, h, p) else DefaultTile
  }

  /** A grid of default tiles, as the constructor's Array2D starts. */
  function DefaultBoard(w: int, h: int): (r: Board)
    ensures forall p :: p in r <==> 0 <= p.x < w && 0 <= p.y < h
  {
    map p | p in GridPoints(w, h) :: DefaultTile
  }

  /** Rebuffering a default grid to the same size leaves default tiles. */
  lemma RebufferedDefault(g: Geometry, p: Vector2i)
    requires g.Width >= 0 && g.Height >= 0 && g.InGrid(p)
    ensures Covers(g, DefaultBoard(g.Width, g.Height))
    ensures Rebuffered(DefaultBoard(g.Width, g.Height), g, g.Width, g.Height)[p] == DefaultTile
  {
    LocationOfIndex2(g.Width, g.Height, p.x, p.y);
  }

  /** Every possible tile of every cell is one of all. */
  ghost predicate WithinIDs(out: Board, all: set<nat>)
  {
    forall p :: p in out ==> out[p].PossibleTiles <= all
  }

  /** The chances of a cell are among all the IDs. */
  lemma {:induction false} ChancesUpToWithin(tiles: seq<Tile>, g: Geometry, out: Board, p: Vector2i, all: set<nat>, d: nat)
    requires g.Filterable() && Covers(g, out) && d <= 4 && ValuesBelow(out, |tiles|)
    ensures ChancesUpTo(tiles, g, out, p, all, d) <= all
  {
    if d > 0 {
      ChancesUpToWithin(tiles, g, out, p, all, d - 1);
    }
  }

  /** The set-erase loop of RecalculateTileChances: each ID of possible
      that matches does not contain is erased. */
  method KeepMatching(possible: set<nat>, matches: set<nat>) returns (kept: set<nat>)
    ensures kept == possible * matches
  {
    kept := possible;
    var temp := possible;
    while temp != {}
      invariant temp <= possible
      invariant kept == (possible - temp) * matches + temp
      decreases |temp|
    {
      var id :| id in temp;
      if id !in matches {
        kept := kept - {id};
      }
      temp := temp - {id};
    }
  }

  /** Every cell unset and free to become any of ids, keeping whether it is
      deletable. */
  function Unset(buffer: Board, ids: set<nat>): (r: Board)
    ensures r.Keys == buffer.Keys
  {
    map p | p in buffer :: OutputTile(None, ids, buffer[p].IsDeletable)
  }

  /** An unset board has no values, and its cells may become only ids. */
  lemma UnsetValid(buffer: Board, ids: set<nat>, n: nat)
    ensures ValuesBelow(Unset(buffer, ids), n) && WithinIDs(Unset(buffer, ids), ids)
    ensures forall p :: p in Unset(buffer, ids) ==> !Unset(buffer, ids)[p].IsSet()
  {
  }

  /** Maps with the same keys and values are equal. */
  lemma MapsEqual(a: Board, b: Board)
    requires a.Keys == b.Keys && forall p :: p in a ==> a[p] == b[p]
    ensures a == b
  {
  }

  /** The loop of Reset that fills allTileIDs. */
  method AllIDs(n: nat) returns (ids: set<nat>)
    ensures ids == IDsBelow(n)
  {
    ids := {};
    var tileID := 0;
    while tileID < n
      invariant 0 <= tileID <= n
      invariant ids == IDsBelow(tileID)
    {
      ids := ids + {tileID};
      tileID := tileID + 1;
    }
  }

  /** The loop of Reset over the output: every cell is unset and may become
      any of ids; whether it is deletable stays as it was. */
  method ClearCells(buffer: Board, size: Vector2i, ids: set<nat>) returns (cells: Board)
    requires size.x >= 0 && size.y >= 0 && (size.x == 0 ==> size.y == 0)
    requires forall p :: p in buffer <==> FromSize2(size).Contains(p)
    ensures cells == Unset(buffer, ids)
  {
    cells := buffer;
    var pts := Iterate2(FromSize2(size));
    Points2Exactly(FromSize2(size));
    var i := 0;
    while i < |pts|
      invariant 0 <= i <= |pts|
      invariant cells.Keys == buffer.Keys
      invariant forall p :: p in cells ==>
                  cells[p] == if p in pts[..i] then OutputTile(None, ids, buffer[p].IsDeletable) else buffer[p]
    {
      assert pts[..i + 1] == pts[..i] + [pts[i]];
      cells := cells[pts[i] := cells[pts[i]].(Value := None, PossibleTiles := ids)];
      i := i + 1;
    }
    assert pts[..i] == pts;
    MapsEqual(cells, Unset(buffer, ids));
  }

  /** The edge loop of RecalculateTileChances: starting from all, each set
      neighbour narrows the tiles to those GetTilesWithEdge gives for its
      facing edge. */
  method Narrow(input: InputData, g: Geometry, out: Board, pos: Vector2i, all: set<nat>) returns (possible: set<nat>)
    requires input.Valid() && g.Filterable() && Covers(g, out) && ValuesBelow(out, |input.tiles|)
    ensures possible == Chances(input.tiles, g, out, pos, all)
  {
    possible := all;
    var edgeI := 0;
    while edgeI < 4
      invariant 0 <= edgeI <= 4
      invariant possible == ChancesUpTo(input.tiles, g, out, pos, all, edgeI)
    {
      var neighborPos := pos.Plus(EdgeDirection(edgeI));
      IsValidPosMeaning(g, neighborPos);
      if g.IsValidPos(neighborPos) && out[g.Filter(neighborPos)].IsSet() {
        var neighborTile := input.tiles[out[g.Filter(neighborPos)].Value.value];
        var neighborMatches := input.GetTilesWithEdge(neighborTile.Edges[OppositeEdge(edgeI)], edgeI);
        possible := KeepMatching(possible, neighborMatches);
      } else {
        ChancesUpToWithin(input.tiles, g, out, pos, all, edgeI);
      }
      edgeI := edgeI + 1;
    }
  }

  /** The clearing loop of ClearArea over the region's positions in
      row-major order. */
  method ClearLoop(g: Geometry, all: set<nat>, s: Clearing, region: Region2i) returns (r: Clearing)
    requires g.Filterable() && Covers(g, s.out) && region.GetSize().x > 0 && region.GetSize().y > 0
    requires FiltersIn(g, Points2(region))
    ensures r == ClearAll(g, all, s, Points2(region))
  {
    var pts := Iterate2(region);
    r := s;
    var i := 0;
    while i < |pts|
      invariant 0 <= i <= |pts|
      invariant r == ClearAll(g, all, s, pts[..i])
    {
      assert pts[..i + 1][..i] == pts[..i];
      r := ClearStep(g, all, r, pts[i]);
      i := i + 1;
    }
    assert pts[..i] == pts;
  }

  /** One position of the clearing loop of ClearArea. */
  method ClearStep(g: Geometry, all: set<nat>, s: Clearing, pos: Vector2i) returns (r: Clearing)
    requires g.Filterable() && Covers(g, s.out) && g.InGrid(g.Filter(pos))
    ensures r == ClearVisit(g, all, s, pos)
  {
    var out, affected := s.out, s.affected;
    var posToClear := g.Filter(pos);
    if posToClear !in affected {
      affected := affected + {posToClear};
      var tile := out[posToClear];
      if tile.IsDeletable {
        out := out[posToClear := tile.(Value := None, PossibleTiles := all)];
      } else {
        affected := affected - {posToClear};
      }
    }
    r := Clearing(out, affected);
  }

  /** The border loops of ClearArea: the left and right neighbours of each
      row, then the top and bottom neighbours of each column, where the
      side wraps or lies inside the grid. */
  method AddBorder(g: Geometry, region: Region2i, affected0: set<Vector2i>) returns (affected: set<Vector2i>)
    requires g.Filterable() && region.GetSize().x >= 0 && region.GetSize().y >= 0
    ensures affected == affected0 + Border(g, region)
  {
    var sides := AddSides(g, region, affected0);
    affected := AddEnds(g, region, sides);
  }

  /** The first border loop: the left and right neighbours, row by row. */
  method AddSides(g: Geometry, region: Region2i, affected0: set<Vector2i>) returns (affected: set<Vector2i>)
    requires g.Filterable() && region.GetSize().y >= 0
    ensures affected == affected0 + SideCellsUpTo(g, region, region.GetSize().y)
  {
    affected := affected0;
    var allowMinX := g.PeriodicX || region.MinInclusive.x > 0;
    var allowMaxX := g.PeriodicX || region.MaxExclusive.x < g.Width;
    var minEdge := g.Filter(region.MinInclusive.Minus(Vector2i(1, 1)));
    var maxEdge := g.Filter(region.MaxExclusive);
    var y := region.MinInclusive.y;
    while y < region.MaxExclusive.y
      invariant region.MinInclusive.y <= y <= region.MaxExclusive.y
      invariant affected == affected0 + SideCellsUpTo(g, region, y - region.MinInclusive.y)
    {
      ghost var k := y - region.MinInclusive.y;
      assert SideCells(g, region, k) ==
        (if allowMinX then {g.Filter(Vector2i(minEdge.x, y))} else {}) +
        (if allowMaxX then {g.Filter(Vector2i(maxEdge.x, y))} else {});
      if allowMinX {
        affected := affected + {g.Filter(Vector2i(minEdge.x, y))};
      }
      if allowMaxX {
        affected := affected + {g.Filter(Vector2i(maxEdge.x, y))};
      }
      y := y + 1;
    }
  }

  /** The second border loop: the top and bottom neighbours, column by
      column. */
  method AddEnds(g: Geometry, region: Region2i, affected0: set<Vector2i>) returns (affected: set<Vector2i>)
    requires g.Filterable() && region.GetSize().x >= 0
    ensures affected == affected0 + EndCellsUpTo(g, region, region.GetSize().x)
  {
    affected := affected0;
    var allowMinY := g.PeriodicY || region.MinInclusive.y > 0;
    var allowMaxY := g.PeriodicY || region.MaxExclusive.y < g.Height;
    var minEdge := g.Filter(region.MinInclusive.Minus(Vector2i(1, 1)));
    var maxEdge := g.Filter(region.MaxExclusive);
    var x := region.MinInclusive.x;
    while x < region.MaxExclusive.x
      invariant region.MinInclusive.x <= x <= region.MaxExclusive.x
      invariant affected == affected0 + EndCellsUpTo(g, region, x - region.MinInclusive.x)
    {
      ghost var k := x - region.MinInclusive.x;
      assert EndCells(g, region, k) ==
        (if allowMinY then {g.Filter(Vector2i(x, minEdge.y))} else {}) +
        (if allowMaxY then {g.Filter(Vector2i(x, maxEdge.y))} else {});
      if allowMinY {
        affected := affected + {g.Filter(Vector2i(x, minEdge.y))};
      }
      if allowMaxY {
        affected := affected + {g.Filter(Vector2i(x, maxEdge.y))};
      }
      x := x + 1;
    }
  }

  /** The scan of GetBestTiles over pts. Where the source starts from the
      largest size_t, the smallest size seen so far is None. */
  method ScanBest(out: Board, pts: seq<Vector2i>) returns (outValues: seq<Vector2i>)
    requires forall k :: 0 <= k < |pts| ==> pts[k] in out
    ensures outValues == Best(out, pts)
  {
    var currentMinEntropy: Option<nat> := None;
    outValues := [];
    var i := 0;
    while i < |pts|
      invariant 0 <= i <= |pts|
      invariant currentMinEntropy == MinEntropy(out, pts[..i])
      invariant outValues == Best(out, pts[..i])
    {
      assert pts[..i + 1][..i] == pts[..i];
      var outTile := out[pts[i]];
      if !outTile.IsSet() {
        var thisEntropy := |outTile.PossibleTiles|;
        if currentMinEntropy.None? || thisEntropy < currentMinEntropy.value {
          WithEntropyBelow(out, pts[..i], thisEntropy);
          currentMinEntropy := Some(thisEntropy);
          outValues := [pts[i]];
        } else if thisEntropy == currentMinEntropy.value {
          outValues := outValues + [pts[i]];
        }
      }
      i := i + 1;
    }
    assert pts[..i] == pts;
  }

  /** The output's cells in the order a range-for over its region visits
      them. */
  function GridOrder(g: Geometry): seq<Vector2i>
  {
    Points2(FromSize2(Vector2i(g.Width, g.Height)))
  }

  /** The order lists cells of the grid. */
  lemma GridOrderInGrid(g: Geometry)
    ensures forall p :: p in GridOrder(g) ==> g.InGrid(p)
    ensures forall k :: 0 <= k < |GridOrder(g)| ==> g.InGrid(GridOrder(g)[k])
  {
    Points2Exactly(FromSize2(Vector2i(g.Width, g.Height)));
  }

  /** A range-for over the grid's region visits the grid's order, since a
      grid with no width has no height either. */
  lemma GridVisits(g: Geometry)
    requires g.Width >= 0 && g.Height >= 0 && (g.Width == 0 ==> g.Height == 0)
    ensures Visits2(FromSize2(Vector2i(g.Width, g.Height))) == GridOrder(g)
  {
    var r := FromSize2(Vector2i(g.Width, g.Height));
    if g.Width == 0 {
      Points2Exactly(r);
      assert |Points2(r)| == 0;
    } else {
      assert Visits2(r) == Points2(r);
    }
  }

  /** GetBestTiles' range-for over the output's region. */
  method ScanGrid(g: Geometry, out: Board) returns (outValues: seq<Vector2i>)
    requires g.Width >= 0 && g.Height >= 0 && (g.Width == 0 ==> g.Height == 0) && Covers(g, out)
    ensures outValues == BestIn(g, out)
  {
    var pts := Iterate2(FromSize2(Vector2i(g.Width, g.Height)));
    GridVisits(g);
    GridOrderInGrid(g);
    outValues := ScanBest(out, pts);
  }

  /** What GetBestTiles returns for a board: the unset cells of the grid
      with the fewest possible tiles, in row-major order. */
  function BestIn(g: Geometry, out: Board): (r: seq<Vector2i>)
    requires Covers(g, out)
    ensures forall i :: 0 <= i < |r| ==> g.InGrid(r[i]) && !out[r[i]].IsSet()
  {
    GridOrderInGrid(g);
    BestListed(out, GridOrder(g));
    Best(out, GridOrder(g))
  }

  /** The body of ClearArea on the output and the affected positions: the
      region around center, clamped along the axes that do not wrap, is
      cleared position by position, then its neighbours are added. */
  method ClearAround(g: Geometry, all: set<nat>, clearSize: nat, s: Clearing, center: Vector2i) returns (r: Clearing)
    requires g.InGrid(center) && Covers(g, s.out)
    ensures r == ClearAreaOf(g, all, clearSize, s, center)
  {
    var clearRegion := Region2i(center.Minus(Vector2i(clearSize, clearSize)),
                                center.Plus(Vector2i(clearSize + 1, clearSize + 1)));
    if !g.PeriodicX {
      clearRegion := Region2i(clearRegion.MinInclusive.(x := Clamp(clearRegion.MinInclusive.x, 0, g.Width - 1)),
                              clearRegion.MaxExclusive.(x := Clamp(clearRegion.MaxExclusive.x, 1, g.Width)));
    }
    if !g.PeriodicY {
      clearRegion := Region2i(clearRegion.MinInclusive.(y := Clamp(clearRegion.MinInclusive.y, 0, g.Height - 1)),
                              clearRegion.MaxExclusive.(y := Clamp(clearRegion.MaxExclusive.y, 1, g.Height)));
    }
    assert clearRegion == ClearRegion(g, center, clearSize);
    ClearRegionFilters(g, center, clearSize);
    var cleared := ClearLoop(g, all, s, clearRegion);
    var affected := AddBorder(g, clearRegion, cleared.affected);
    r := Clearing(cleared.out, affected);
  }

  /** ClearArea keeps every value below n and every cell's possible tiles
      among all. */
  lemma ClearAreaValid(g: Geometry, all: set<nat>, c: nat, s: Clearing, center: Vector2i, n: nat)
    requires g.InGrid(center) && Covers(g, s.out)
    requires ValuesBelow(s.out, n) && WithinIDs(s.out, all)
    ensures ValuesBelow(ClearAreaOf(g, all, c, s, center).out, n) && WithinIDs(ClearAreaOf(g, all, c, s, center).out, all)
  {
    ClearRegionFilters(g, center, c);
    ClearedValid(g, all, s, Points2(ClearRegion(g, center, c)), n);
  }

  /** Clearing keeps every value below n and every cell's possible tiles
      among all. */
  lemma {:induction false} ClearedValid(g: Geometry, all: set<nat>, s: Clearing, pts: seq<Vector2i>, n: nat)
    requires g.Filterable() && Covers(g, s.out) && FiltersIn(g, pts)
    requires ValuesBelow(s.out, n) && WithinIDs(s.out, all)
    ensures ValuesBelow(ClearAll(g, all, s, pts).out, n) && WithinIDs(ClearAll(g, all, s, pts).out, all)
    decreases |pts|
  {
    if |pts| > 0 {
      ClearedValid(g, all, s, pts[..|pts| - 1], n);
    }
  }

  /** Every listed cell has as many possible tiles as the first. */
  lemma BestInShareEntropy(g: Geometry, out: Board, k: nat)
    requires Covers(g, out) && k < |BestIn(g, out)|
    ensures |out[BestIn(g, out)[k]].PossibleTiles| == |out[BestIn(g, out)[0]].PossibleTiles|
  {
    GridOrderInGrid(g);
    BestShareEntropy(out, GridOrder(g), k);
    BestShareEntropy(out, GridOrder(g), 0);
  }

  /** The loop of Iterate over the chosen cell's possible tiles, in the
      set's iteration order. */
  method Options(possible: set<nat>) returns (optionValues: seq<nat>)
    ensures |optionValues| == |possible|
    ensures forall k :: 0 <= k < |optionValues| ==> optionValues[k] in possible
  {
    optionValues := [];
    var rest := possible;
    while rest != {}
      invariant rest <= possible
      invariant |optionValues| + |rest| == |possible|
      invariant forall k :: 0 <= k < |optionValues| ==> optionValues[k] in possible
      decreases |rest|
    {
      var tileOptionID :| tileOptionID in rest;
      optionValues := optionValues + [tileOptionID];
      rest := rest - {tileOptionID};
    }
  }

  /** The first cell found has no possible tile left: a contradiction. */
  predicate Stuck(out: Board, best: seq<Vector2i>)
  {
    |best| > 0 && best[0] in out && |out[best[0]].PossibleTiles| == 0
  }

  /** out is out0 after ClearArea around every cell of best, sharing the
      affected positions, and after recalculating every affected position. */
  ghost predicate Recovered(tiles: seq<Tile>, g: Geometry, c: nat, all: set<nat>, out0: Board, best: seq<Vector2i>,
                            out: Board)
  {
    g.Filterable() && Covers(g, out0) && (forall i :: 0 <= i < |best| ==> g.InGrid(best[i])) &&
    ValuesBelow(ClearMany(g, all, c, Clearing(out0, {}), best).out, |tiles|) &&
    RecalculatedAt(tiles, g, ClearMany(g, all, c, Clearing(out0, {}), best).out, out,
                   ClearMany(g, all, c, Clearing(out0, {}), best).affected, all)
  }

  /** p is the roll-th cell of best, wrapping around. */
  predicate ChoseAt(best: seq<Vector2i>, roll: nat, p: Vector2i)
  {
    |best| > 0 && p == best[roll % |best|]
  }

  /** out is out0 after SetTile put one of p's possible tiles at p. */
  ghost predicate Picked(tiles: seq<Tile>, g: Geometry, all: set<nat>, out0: Board, p: Vector2i, out: Board)
  {
    g.Filterable() && Covers(g, out0) && ValuesBelow(out0, |tiles|) && g.InGrid(p) && p in out &&
    out[p].Value.Some? && out[p].Value.value in out0[p].PossibleTiles && out[p].Value.value < |tiles| &&
    SetOutcome(tiles, g, out0, out, p, out[p].Value.value, false, all)
  }

  /** Recalculating keeps every cell's possible tiles among all. */
  lemma RecalculatedWithin(tiles: seq<Tile>, g: Geometry, base: Board, out: Board, done: set<Vector2i>, all: set<nat>)
    requires g.Filterable() && Covers(g, base) && ValuesBelow(base, |tiles|)
    requires RecalculatedAt(tiles, g, base, out, done, all) && WithinIDs(base, all)
    ensures WithinIDs(out, all)
  {
    forall q | q in out ensures out[q].PossibleTiles <= all {
      if q in done && !base[q].IsSet() {
        ChancesUpToWithin(tiles, g, base, q, all, EdgeCount());
      }
    }
  }

  /** SetTile keeps every value below the tile count and every cell's
      possible tiles among all. */
  lemma SetWithin(tiles: seq<Tile>, g: Geometry, old_: Board, out: Board, p: Vector2i, value: nat,
                  permanent: bool, all: set<nat>)
    requires g.Filterable() && Covers(g, old_) && ValuesBelow(old_, |tiles|) && g.InGrid(p) && value < |tiles|
    requires SetOutcome(tiles, g, old_, out, p, value, permanent, all)
    requires WithinIDs(old_, all) && value in all
    ensures WithinIDs(out, all)
  {
    var base := old_[p := OutputTile(Some(value), {value}, !permanent)];
    assert WithinIDs(base, all);
    RecalculatedWithin(tiles, g, base, out, Touched(g, p), all);
  }

  /** ClearArea around several centers keeps every value below n and every
      cell's possible tiles among all. */
  lemma {:induction false} ClearManyValid(g: Geometry, all: set<nat>, c: nat, s: Clearing, centers: seq<Vector2i>, n: nat)
    requires Covers(g, s.out) && forall i :: 0 <= i < |centers| ==> g.InGrid(centers[i])
    requires ValuesBelow(s.out, n) && WithinIDs(s.out, all)
    ensures ValuesBelow(ClearMany(g, all, c, s, centers).out, n) && WithinIDs(ClearMany(g, all, c, s, centers).out, all)
    decreases |centers|
  {
    if |centers| > 0 {
      var front := centers[..|centers| - 1];
      ClearManyValid(g, all, c, s, front, n);
      ClearAreaValid(g, all, c, ClearMany(g, all, c, s, front), centers[|centers| - 1], n);
    }
  }

  /** The body of RecalculateTileChances on the board: a set cell is left
      alone, an unset one narrowed edge by edge. */
  method RecalcCell(input: InputData, g: Geometry, out: Board, pos: Vector2i, all: set<nat>) returns (r: Board)
    requires input.Valid() && g.Filterable() && Covers(g, out) && ValuesBelow(out, |input.tiles|) && g.InGrid(pos)
    ensures r == Recalc(input.tiles, g, out, pos, all)
  {
    if out[pos].IsSet() {
      return out;
    }
    var possible := Narrow(input, g, out, pos, all);
    r := out[pos := out[pos].(PossibleTiles := possible)];
  }

  /** One neighbour update of SetTile: when allowed, the cell across side
      e is recalculated. */
  method RecalcSide(input: InputData, g: Geometry, ghost base: Board, ghost done: set<Vector2i>, out: Board,
                    tilePos: Vector2i, e: nat, all: set<nat>)
    returns (r: Board, ghost done': set<Vector2i>)
    requires input.Valid() && g.InGrid(tilePos) && e < 4
    requires g.Filterable() && Covers(g, base) && ValuesBelow(base, |input.tiles|)
    requires RecalculatedAt(input.tiles, g, base, out, done, all)
    ensures done' == done + SideCell(g, tilePos, e)
    ensures RecalculatedAt(input.tiles, g, base, r, done', all)
  {
    r, done' := out, done;
    if SideAllowed(g, tilePos, e) {
      var n := g.Filter(tilePos.Plus(EdgeDirection(e)));
      SideInGrid(g, tilePos, e);
      RecalcStep(input.tiles, g, base, out, done, all, n);
      r := RecalcCell(input, g, out, n, all);
      done' := done + {n};
    }
  }

  /** The body of SetTile on the board. */
  method SetTileOn(input: InputData, g: Geometry, out0: Board, tilePos: Vector2i, value: nat, permanent: bool,
                   all: set<nat>)
    returns (out: Board)
    requires input.Valid() && g.Filterable() && g.InGrid(tilePos)
    requires Covers(g, out0) && ValuesBelow(out0, |input.tiles|) && value < |input.tiles|
    requires WithinIDs(out0, all) && value in all
    ensures SetOutcome(input.tiles, g, out0, out, tilePos, value, permanent, all)
    ensures WithinIDs(out, all)
  {
    out := out0[tilePos := OutputTile(Some(value), {value}, !permanent)];
    ghost var base := out;
    ghost var done: set<Vector2i> := {};
    RecalcNone(input.tiles, g, base, all);
    out, done := RecalcSide(input, g, base, done, out, tilePos, MIN_X, all);
    assert done == {} + SideCell(g, tilePos, MIN_X);
    ghost var one := done;
    out, done := RecalcSide(input, g, base, done, out, tilePos, MIN_Y, all);
    assert done == one + SideCell(g, tilePos, MIN_Y);
    ghost var two := done;
    out, done := RecalcSide(input, g, base, done, out, tilePos, MAX_X, all);
    assert done == two + SideCell(g, tilePos, MAX_X);
    ghost var three := done;
    out, done := RecalcSide(input, g, base, done, out, tilePos, MAX_Y, all);
    assert done == three + SideCell(g, tilePos, MAX_Y);
    assert {} + SideCell(g, tilePos, MIN_X) == SideCell(g, tilePos, MIN_X);
    SetWithin(input.tiles, g, out0, out, tilePos, value, permanent, all);
  }

  /** The first loop of Iterate's recovery: ClearArea around each cell
      found, sharing the affected positions. */
  method ClearAreasOn(g: Geometry, all: set<nat>, c: nat, out0: Board, best: seq<Vector2i>) returns (r: Clearing)
    requires Covers(g, out0) && forall i :: 0 <= i < |best| ==> g.InGrid(best[i])
    ensures r == ClearMany(g, all, c, Clearing(out0, {}), best)
    ensures AllInGrid(g, r.affected)
  {
    r := Clearing(out0, {});
    var i := 0;
    while i < |best|
      invariant 0 <= i <= |best|
      invariant r == ClearMany(g, all, c, Clearing(out0, {}), best[..i])
      invariant AllInGrid(g, r.affected)
    {
      assert best[..i + 1][..i] == best[..i];
      ClearAreaInGrid(g, all, c, r, best[i]);
      r := ClearAround(g, all, c, r, best[i]);
      i := i + 1;
    }
    assert best[..i] == best;
  }

  /** The second loop of Iterate's recovery: RecalculateTileChances at every
      affected position, in the set's iteration order. */
  method RecalculateAllOn(input: InputData, g: Geometry, all: set<nat>, cleared: Board, affected: set<Vector2i>)
    returns (out: Board)
    requires input.Valid() && g.Filterable() && Covers(g, cleared) && ValuesBelow(cleared, |input.tiles|)
    requires AllInGrid(g, affected)
    ensures RecalculatedAt(input.tiles, g, cleared, out, affected, all)
  {
    out := cleared;
    RecalcNone(input.tiles, g, cleared, all);
    var rest := affected;
    while rest != {}
      invariant rest <= affected
      invariant RecalculatedAt(input.tiles, g, cleared, out, affected - rest, all)
      decreases |rest|
    {
      var affectedPos :| affectedPos in rest;
      RecalcStep(input.tiles, g, cleared, out, affected - rest, all, affectedPos);
      out := RecalcCell(input, g, out, affectedPos, all);
      assert (affected - rest) + {affectedPos} == affected - (rest - {affectedPos});
      rest := rest - {affectedPos};
    }
    assert affected - rest == affected;
  }

  /** The recovery branch of Iterate on the board: ClearArea around each
      cell found, then RecalculateTileChances at every affected position. */
  method RecoverOn(input: InputData, g: Geometry, all: set<nat>, c: nat, out0: Board, best: seq<Vector2i>)
    returns (out: Board)
    requires input.Valid() && g.Filterable() && Covers(g, out0) && forall i :: 0 <= i < |best| ==> g.InGrid(best[i])
    requires ValuesBelow(out0, |input.tiles|) && WithinIDs(out0, all)
    ensures Recovered(input.tiles, g, c, all, out0, best, out)
    ensures Covers(g, out) && ValuesBelow(out, |input.tiles|) && WithinIDs(out, all)
  {
    var cleared := ClearAreasOn(g, all, c, out0, best);
    ClearManyValid(g, all, c, Clearing(out0, {}), best, |input.tiles|);
    out := RecalculateAllOn(input, g, all, cleared.out, cleared.affected);
    RecalculatedWithin(input.tiles, g, cleared.out, out, cleared.affected, all);
  }

  // ---------------------------------------------------------------------
  // The solver state

  /** Tiled::State. The random generator is not part of the model: Iterate
      takes the numbers it would draw as parameters. */
  class State {
    const Input: InputData
    var Output: Board
    var width: int
    var height: int
    var PeriodicX: bool
    var PeriodicY: bool
    var ClearSize: nat
    var allTileIDs: set<nat>

    function Geo(): Geometry
      reads this
    {
      Geometry(width, height, PeriodicX, PeriodicY)
    }

    /** The output holds the grid's cells (a grid with no width has no
        height either); allTileIDs holds every tile ID; every cell is set
        to and may become only tile IDs. */
    ghost predicate Valid()
      reads this, Input
    {
      Input.Valid() && Shaped() && allTileIDs == IDsBelow(|Input.tiles|) &&
      ValuesBelow(Output, |Input.tiles|) && WithinIDs(Output, allTileIDs)
    }

    ghost predicate Shaped()
      reads this
    {
      width >= 0 && height >= 0 && (width == 0 ==> height == 0) && Covers(Geo(), Output)
    }

    /** The constructor: an output of default tiles, then Reset. The seed is
        not modelled. */
    constructor(input: InputData, outputSize: Vector2i, periodicX: bool, periodicY: bool, clearSize: nat)
      requires input.Valid()
      requires outputSize.x >= 0 && outputSize.y >= 0 && (outputSize.x == 0 ==> outputSize.y == 0)
      ensures Valid() && Input == input
      ensures width == outputSize.x && height == outputSize.y
      ensures PeriodicX == periodicX && PeriodicY == periodicY && ClearSize == clearSize
      ensures forall p :: p in Output ==> Output[p] == OutputTile(None, IDsBelow(|input.tiles|), true)
    {
      Input := input;
      Output := DefaultBoard(outputSize.x, outputSize.y);
      width, height := outputSize.x, outputSize.y;
      PeriodicX, PeriodicY, ClearSize := periodicX, periodicY, clearSize;
      allTileIDs := {};
      new;
      assert Shaped();
      Reset(outputSize);
      forall p | p in Output ensures Output[p] == OutputTile(None, IDsBelow(|input.tiles|), true) {
        RebufferedDefault(Geo(), p);
      }
    }

    /** Reset: allTileIDs becomes every tile ID and, after Array2D::Reset,
        every cell is unset and may become any tile. Whether a cell is
        deletable is not reset: it is what the kept buffer held at that
        index, or true for a new buffer. */
    method Reset(newOutputSize: Vector2i)
      requires Input.Valid() && Shaped()
      requires newOutputSize.x >= 0 && newOutputSize.y >= 0 && (newOutputSize.x == 0 ==> newOutputSize.y == 0)
      modifies this
      ensures Valid()
      ensures width == newOutputSize.x && height == newOutputSize.y
      ensures PeriodicX == old(PeriodicX) && PeriodicY == old(PeriodicY) && ClearSize == old(ClearSize)
      ensures allTileIDs == IDsBelow(|Input.tiles|)
      ensures Output == Unset(Rebuffered(old(Output), old(Geo()), width, height), allTileIDs)
    {
      var ids := AllIDs(|Input.tiles|);
      var buffer := Rebuffered(Output, Geo(), newOutputSize.x, newOutputSize.y);
      var cells := ClearCells(buffer, newOutputSize, ids);
      UnsetValid(buffer, ids, |Input.tiles|);
      allTileIDs, Output := ids, cells;
      width, height := newOutputSize.x, newOutputSize.y;
    }
  
    /** RecalculateTileChances: the cell at Filter(tilePos), when unset,
        may become exactly the tiles that fit every set neighbour; every
        other cell, and a set cell, is unchanged. */
    method RecalculateTileChances(tilePos: Vector2i)
      requires Valid() && Geo().Filterable() && Geo().InGrid(Geo().Filter(tilePos))
      modifies this
      ensures Valid()
      ensures width == old(width) && height == old(height) && PeriodicX == old(PeriodicX)
      ensures PeriodicY == old(PeriodicY) && ClearSize == old(ClearSize) && allTileIDs == old(allTileIDs)
      ensures Output == Recalc(Input.tiles, Geo(), old(Output), Geo().Filter(tilePos), allTileIDs)
    {
      var g := Geo();
      var pos := g.Filter(tilePos);
      if !Output[pos].IsSet() {
        ChancesUpToWithin(Input.tiles, g, Output, pos, allTileIDs, EdgeCount());
      }
      Output := RecalcCell(Input, g, Output, pos, allTileIDs);
      assert Geo() == g;
    }

    /** SetTile: the cell holds value and may become only value, and is
        deletable unless permanent; then each neighbour across a side that
        wraps or is not the grid's edge is recalculated. */
    method SetTile(tilePos: Vector2i, value: nat, permanent: bool)
      requires Valid() && Geo().InGrid(tilePos) && value < |Input.tiles|
      modifies this
      ensures Valid()
      ensures width == old(width) && height == old(height) && PeriodicX == old(PeriodicX)
      ensures PeriodicY == old(PeriodicY) && ClearSize == old(ClearSize) && allTileIDs == old(allTileIDs)
      ensures SetOutcome(Input.tiles, Geo(), old(Output), Output, tilePos, value, permanent, allTileIDs)
    {
      var g := Geo();
      assert value in allTileIDs;
      Output := SetTileOn(Input, g, Output, tilePos, value, permanent, allTileIDs);
      assert Geo() == g;
    }
  
    /** ClearArea: the cells of the region around center are cleared unless
        not deletable, and those cleared and the region's neighbours join
        the affected positions. */
    method ClearArea(center: Vector2i, affected0: set<Vector2i>) returns (affected: set<Vector2i>)
      requires Valid() && Geo().InGrid(center)
      modifies this
      ensures Valid()
      ensures width == old(width) && height == old(height) && PeriodicX == old(PeriodicX)
      ensures PeriodicY == old(PeriodicY) && ClearSize == old(ClearSize) && allTileIDs == old(allTileIDs)
      ensures Clearing(Output, affected) == ClearAreaOf(Geo(), allTileIDs, ClearSize, Clearing(old(Output), affected0), center)
    {
      var g := Geo();
      var r := ClearAround(g, allTileIDs, ClearSize, Clearing(Output, affected0), center);
      ClearAreaValid(g, allTileIDs, ClearSize, Clearing(Output, affected0), center, |Input.tiles|);
      Output, affected := r.out, r.affected;
      assert Geo() == g;
    }

    /** GetBestTiles: a scan in row-major order keeping the smallest number
        of possible tiles seen among unset cells and the cells having it. */
    method GetBestTiles() returns (outValues: seq<Vector2i>)
      requires Valid()
      ensures outValues == BestIn(Geo(), Output)
    {
      outValues := ScanGrid(Geo(), Output);
    }
  
    /** Iterate: Some(true) when every cell is set; Some(false), with the
        cells found, on a contradiction when clearing is off; otherwise the
        contradiction is cleared away, or a cell with fewest possible tiles
        is set to one of them. roll stands for the generator's draw that
        picks the cell and pick for the weighted draw that picks the tile. */
    method Iterate(roll: nat, pick: nat, changedPos0: Vector2i, failedAt0: seq<Vector2i>)
      returns (result: Option<bool>, changedPos: Vector2i, failedAt: seq<Vector2i>)
      requires Valid()
      modifies this
      ensures Valid()
      ensures width == old(width) && height == old(height) && PeriodicX == old(PeriodicX)
      ensures PeriodicY == old(PeriodicY) && ClearSize == old(ClearSize) && allTileIDs == old(allTileIDs)
      ensures result == Some(true) <==> old(BestIn(Geo(), Output)) == []
      ensures result == Some(false) <==> Stuck(old(Output), old(BestIn(Geo(), Output))) && ClearSize == 0
      ensures result.Some? ==> Output == old(Output) && changedPos == changedPos0
      ensures failedAt == if result == Some(false) then old(BestIn(Geo(), Output)) else failedAt0
      ensures result.None? && Stuck(old(Output), old(BestIn(Geo(), Output))) ==>
                changedPos == Vector2i(-1, -1) &&
                Recovered(Input.tiles, Geo(), ClearSize, allTileIDs, old(Output), old(BestIn(Geo(), Output)), Output)
      ensures result.None? && !Stuck(old(Output), old(BestIn(Geo(), Output))) ==>
                ChoseAt(old(BestIn(Geo(), Output)), roll, changedPos) &&
                Picked(Input.tiles, Geo(), allTileIDs, old(Output), changedPos, Output)
    {
      var lowestEntropyTilePoses := GetBestTiles();
      if |lowestEntropyTilePoses| == 0 {
        return Some(true), changedPos0, failedAt0;
      }
      var entropy := |Output[lowestEntropyTilePoses[0]].PossibleTiles|;
      if entropy == 0 {
        if ClearSize > 0 {
          changedPos := RecoverFrom(lowestEntropyTilePoses);
          return None, changedPos, failedAt0;
        } else {
          return Some(false), changedPos0, lowestEntropyTilePoses;
        }
      }
      changedPos := ChooseAndSet(lowestEntropyTilePoses, roll, pick);
      return None, changedPos, failedAt0;
    }

    /** The last branch of Iterate: the roll-th cell found is set to one of
        its possible tiles, the one alone when there is one, else the
        pick-th in the set's iteration order. */
    method ChooseAndSet(best: seq<Vector2i>, roll: nat, pick: nat) returns (changedPos: Vector2i)
      requires Valid() && best == BestIn(Geo(), Output) && |best| > 0
      requires |Output[best[0]].PossibleTiles| > 0
      modifies this
      ensures Valid()
      ensures width == old(width) && height == old(height) && PeriodicX == old(PeriodicX)
      ensures PeriodicY == old(PeriodicY) && ClearSize == old(ClearSize) && allTileIDs == old(allTileIDs)
      ensures ChoseAt(best, roll, changedPos)
      ensures Picked(Input.tiles, Geo(), allTileIDs, old(Output), changedPos, Output)
    {
      var chosenTileI := roll % |best|;
      var chosenTilePos := best[chosenTileI];
      var chosenTile := Output[chosenTilePos];
      BestInShareEntropy(Geo(), Output, chosenTileI);
      var chosenTileID: nat;
      if |chosenTile.PossibleTiles| == 1 {
        chosenTileID :| chosenTileID in chosenTile.PossibleTiles;
      } else {
        var optionValues := Options(chosenTile.PossibleTiles);
        chosenTileID := optionValues[pick % |optionValues|];
      }
      assert chosenTileID < |Input.tiles|;
      SetTile(chosenTilePos, chosenTileID, false);
      assert Output[chosenTilePos] == OutputTile(Some(chosenTileID), {chosenTileID}, true);
      changedPos := chosenTilePos;
    }

    /** The recovery branch of Iterate: ClearArea around each cell found,
        then RecalculateTileChances at every affected position, in the
        set's iteration order. */
    method RecoverFrom(best: seq<Vector2i>) returns (changedPos: Vector2i)
      requires Valid() && |best| > 0 && forall i :: 0 <= i < |best| ==> Geo().InGrid(best[i])
      modifies this
      ensures Valid()
      ensures width == old(width) && height == old(height) && PeriodicX == old(PeriodicX)
      ensures PeriodicY == old(PeriodicY) && ClearSize == old(ClearSize) && allTileIDs == old(allTileIDs)
      ensures changedPos == Vector2i(-1, -1)
      ensures Recovered(Input.tiles, Geo(), ClearSize, allTileIDs, old(Output), best, Output)
    {
      var g := Geo();
      Output := RecoverOn(Input, g, allTileIDs, ClearSize, Output, best);
      assert Geo() == g;
      changedPos := Vector2i(-1, -1);
    }
  }
}
