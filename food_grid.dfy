/** The spatial index of food and the nearest-food search of one
    bacterium (PetriDish.tsx, steps 1 and the search at the top of 2). */
module FoodGrid {
  import opened DishModel

  type CellKey = (int, int)

  /** The record `grid`: food bucketed by the `${gx},${gy}` key. */
  type Grid = map<CellKey, seq<Food>>

  /** `Math.floor(v / GRID_SIZE)`. */
  function CellIndex(v: real): int {
    (v / GridSize).Floor
  }

  function CellOf(f: Food): CellKey {
    (CellIndex(f.x), CellIndex(f.y))
  }

  /** `Math.ceil(x)`. */
  function Ceil(x: real): (n: int)
    ensures x <= n as real < x + 1.0
  {
    -((-x).Floor)
  }

  /** `Math.ceil(DETECTION_RANGE / GRID_SIZE)`, the number of cells
      scanned on each side of the bacterium's own cell. */
  const ScanRange: int := Ceil(DetectionRange / GridSize)

  /** The food of `food` that lands in cell `c`, in list order. */
  function Bucket(food: seq<Food>, c: CellKey): (b: seq<Food>)
    ensures |b| <= |food|
    ensures forall g :: g in b ==> g in food && CellOf(g) == c
  {
    if food == [] then []
    else
      var last := food[|food| - 1];
      Bucket(food[..|food| - 1], c) + (if CellOf(last) == c then [last] else [])
  }

  /** Every food item is in the bucket of its own cell. */
  lemma {:induction false} InOwnBucket(food: seq<Food>, f: Food)
    requires f in food
    ensures f in Bucket(food, CellOf(f))
  {
    var init := food[..|food| - 1];
    if f != food[|food| - 1] {
      assert f in init;
      InOwnBucket(init, f);
    }
  }

  /** `grid` holds exactly the non-empty buckets of `food`. */
  ghost predicate IsGridOf(grid: Grid, food: seq<Food>) {
    && (forall c :: c in grid ==> grid[c] == Bucket(food, c))
    && (forall c :: Bucket(food, c) != [] ==> c in grid)
  }

  /** Appending an item adds it to its own cell's bucket only. */
  lemma BucketAppend(food: seq<Food>, f: Food, c: CellKey)
    ensures Bucket(food + [f], c) == Bucket(food, c) + (if CellOf(f) == c then [f] else [])
  {
    assert (food + [f])[..|food|] == food;
  }

  /** Step 1 of `update`: push every food item into the bucket of its
      cell, creating the bucket on first use. */
  method BuildGrid(food: seq<Food>) returns (grid: Grid)
    ensures IsGridOf(grid, food)
    ensures forall c :: c in grid ==> grid[c] != []
  {
    grid := map[];
    for i := 0 to |food|
      invariant IsGridOf(grid, food[..i])
      invariant forall c :: c in grid ==> grid[c] != []
    {
      var f := food[i];
      var key := CellOf(f);
      ghost var before := grid;
      assert food[..i + 1] == food[..i] + [f];
      if key !in grid {
        grid := grid[key := []];
      }
      grid := grid[key := grid[key] + [f]];
      forall c | c in grid
        ensures grid[c] == Bucket(food[..i + 1], c)
      {
        BucketAppend(food[..i], f, c);
      }
      forall c | Bucket(food[..i + 1], c) != []
        ensures c in grid
      {
        BucketAppend(food[..i], f, c);
      }
    }
    assert food[..|food|] == food;
  }

  // ---------------------------------------------------------------------
  // Nearest food

  function Dist2(f: Food, x: real, y: real): real {
    Norm2(f.x - x, f.y - y)
  }

  /** `Math.sqrt(...) < DETECTION_RANGE`. */
  predicate Detects(f: Food, x: real, y: real) {
    Dist2(f, x, y) < DetectionRange * DetectionRange
  }

  /** `r` is a food item within detection range whose distance is minimal
      over all of `food`, or none when nothing is within range. */
  ghost predicate IsNearest(food: seq<Food>, x: real, y: real, r: Option<Food>) {
    match r
    case None => forall g :: g in food ==> !Detects(g, x, y)
    case Some(f) =>
      && f in food && Detects(f, x, y)
      && forall g :: g in food ==> Dist2(f, x, y) <= Dist2(g, x, y)
  }

  /** The current bound of the search: the range, or the best distance. */
  function Bound(r: Option<Food>, x: real, y: real): real {
    match r
    case None => DetectionRange * DetectionRange
    case Some(f) => Dist2(f, x, y)
  }

  /** The brute-force reference: a linear scan over the whole list that
      keeps the first item strictly closer than the current bound. */
  function LinearNearest(food: seq<Food>, x: real, y: real): (r: Option<Food>)
    ensures IsNearest(food, x, y, r)
  {
    if food == [] then None
    else
      var init := food[..|food| - 1];
      var f := food[|food| - 1];
      var best := LinearNearest(init, x, y);
      assert forall g :: g in food ==> g in init || g == f;
      if Dist2(f, x, y) < Bound(best, x, y) then Some(f) else best
  }

  /** Two answers to the same nearest-food query agree on whether food
      was found and on its distance. */
  lemma NearestIsUnique(food: seq<Food>, x: real, y: real, r1: Option<Food>, r2: Option<Food>)
    requires IsNearest(food, x, y, r1) && IsNearest(food, x, y, r2)
    ensures r1.None? <==> r2.None?
    ensures r1.Some? && r2.Some? ==> Dist2(r1.value, x, y) == Dist2(r2.value, x, y)
  {
  }

  /** If `u * u < r * r` with `r >= 0`, then `-r < u < r`. */
  lemma SquareBelow(u: real, r: real)
    requires r >= 0.0 && u * u < r * r
    ensures -r < u < r
  {
  }

  /** A food item within detection range of `(x, y)` lies in one of the
      cells the search visits: `ceil(150 / 50) = 3` cells on each side
      cover the detection disk. */
  lemma ScanCoversDetection(f: Food, x: real, y: real)
    requires Detects(f, x, y)
    ensures CellIndex(x) - ScanRange <= CellIndex(f.x) <= CellIndex(x) + ScanRange
    ensures CellIndex(y) - ScanRange <= CellIndex(f.y) <= CellIndex(y) + ScanRange
  {
    assert ScanRange == 3;
    var dx, dy := f.x - x, f.y - y;
    assert dx * dx < DetectionRange * DetectionRange && dy * dy < DetectionRange * DetectionRange
    by {
      assert dx * dx >= 0.0 && dy * dy >= 0.0;
    }
    SquareBelow(dx, DetectionRange);
    SquareBelow(dy, DetectionRange);
  }

  /** `g` is an item of `food` whose cell lies in the block
      `[x0, x1) x [y0, y1)` of cell indices. */
  ghost predicate InBlock(g: Food, food: seq<Food>, x0: int, x1: int, y0: int, y1: int) {
    g in food && x0 <= CellIndex(g.x) < x1 && y0 <= CellIndex(g.y) < y1
  }

  /** The `for (const f of cellFood)` loop: keep the first item strictly
      closer than the best distance so far. Afterwards the bound is at most
      the distance of every item of the bucket; it only shrinks, and a
      change of answer is an item of the bucket strictly closer than before. */
  method ScanBucket(cellFood: seq<Food>, x: real, y: real, closest: Option<Food>, minDist2: real)
    returns (closest': Option<Food>, minDist2': real)
    requires minDist2 == Bound(closest, x, y)
    ensures minDist2' == Bound(closest', x, y) <= minDist2
    ensures closest' == closest || (closest'.Some? && closest'.value in cellFood && minDist2' < minDist2)
    ensures forall g :: g in cellFood ==> minDist2' <= Dist2(g, x, y)
  {
    closest', minDist2' := closest, minDist2;
    for j := 0 to |cellFood|
      invariant minDist2' == Bound(closest', x, y) <= minDist2
      invariant closest' == closest || (closest'.Some? && closest'.value in cellFood && minDist2' < minDist2)
      invariant forall t :: 0 <= t < j ==> minDist2' <= Dist2(cellFood[t], x, y)
    {
      var f := cellFood[j];
      var d2 := Dist2(f, x, y);
      if d2 < minDist2' {
        minDist2' := d2;
        closest' := Some(f);
      }
    }
  }

  /** What the search knows at any point: `minDist2` is the current
      bound, the current answer is among the items seen, and no item seen
      is strictly closer than the bound. */
  ghost predicate Searched(food: seq<Food>, x: real, y: real, closest: Option<Food>, minDist2: real, seen: set<Food>) {
    && minDist2 == Bound(closest, x, y) <= DetectionRange * DetectionRange
    && (closest.Some? ==> closest.value in seen && minDist2 < DetectionRange * DetectionRange)
    && (forall g :: g in seen ==> g in food && minDist2 <= Dist2(g, x, y))
  }

  /** The loop over `iy` for one column `ix` of cells: afterwards every
      item of `food` in the column's cells from `bgy - range` to
      `bgy + range` has been seen. */
  method ScanColumn(grid: Grid, ghost food: seq<Food>, x: real, y: real, ix: int, bgy: int, range: int,
                    closest: Option<Food>, minDist2: real, ghost seen: set<Food>)
    returns (closest': Option<Food>, minDist2': real, ghost seen': set<Food>)
    requires IsGridOf(grid, food) && range >= 0
    requires Searched(food, x, y, closest, minDist2, seen)
    ensures Searched(food, x, y, closest', minDist2', seen')
    ensures minDist2' == Bound(closest', x, y) <= minDist2
    ensures seen <= seen'
    ensures forall g :: InBlock(g, food, ix, ix + 1, bgy - range, bgy + range + 1) ==> g in seen'
  {
    closest', minDist2', seen' := closest, minDist2, seen;
    var iy := bgy - range;
    while iy <= bgy + range
      invariant bgy - range <= iy <= bgy + range + 1
      invariant Searched(food, x, y, closest', minDist2', seen')
      invariant minDist2' <= minDist2
      invariant seen <= seen'
      invariant forall g :: InBlock(g, food, ix, ix + 1, bgy - range, iy) ==> g in seen'
    {
      if (ix, iy) in grid {
        var cellFood := grid[(ix, iy)];
        closest', minDist2' := ScanBucket(cellFood, x, y, closest', minDist2');
        seen' := seen' + set g | g in cellFood;
      }
      forall g | InBlock(g, food, ix, ix + 1, bgy - range, iy + 1)
        ensures g in seen'
      {
        if CellIndex(g.y) == iy {
          InOwnBucket(food, g);
        }
      }
      iy := iy + 1;
    }
  }

  /** The search of `update` (the loops over `ix`, `iy` and the bucket):
      visit the buckets of the 7 by 7 block of cells around the
      bacterium's cell and keep the first item strictly closer than
      the best distance so far, starting from the detection range. It
      finds a nearest food item, and agrees with the linear scan. */
  method NearestFood(grid: Grid, ghost food: seq<Food>, x: real, y: real) returns (closest: Option<Food>)
    requires IsGridOf(grid, food)
    ensures IsNearest(food, x, y, closest)
    ensures closest.None? <==> LinearNearest(food, x, y).None?
    ensures closest.Some? ==> Dist2(closest.value, x, y) == Dist2(LinearNearest(food, x, y).value, x, y)
  {
    closest := None;
    var minDist2 := DetectionRange * DetectionRange;
    var bgx := CellIndex(x);
    var bgy := CellIndex(y);
    var range := ScanRange;
    ghost var seen: set<Food> := {};
    var ix := bgx - range;
    while ix <= bgx + range
      invariant bgx - range <= ix <= bgx + range + 1
      invariant Searched(food, x, y, closest, minDist2, seen)
      invariant forall g :: InBlock(g, food, bgx - range, ix, bgy - range, bgy + range + 1) ==> g in seen
    {
      closest, minDist2, seen := ScanColumn(grid, food, x, y, ix, bgy, range, closest, minDist2, seen);
      ix := ix + 1;
    }
    forall g | g in food && g !in seen
      ensures !Detects(g, x, y)
    {
      if Detects(g, x, y) {
        ScanCoversDetection(g, x, y);
        assert false;
      }
    }
    NearestIsUnique(food, x, y, closest, LinearNearest(food, x, y));
  }
}
