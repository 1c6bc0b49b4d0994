/** One frame of the petri dish (`update` in PetriDish.tsx): index the
    food, advance every bacterium of the previous snapshot through search,
    steering, physics, metabolism, eating, combat and reproduction, then
    maybe spawn one food item. */
module Simulation {
  import opened CellStats
  import opened DishModel
  import opened FoodGrid
  import opened Motion
  import opened Metabolism
  import opened Combat
  import opened Breeding

  /** A child is placed up to 10 units from its parent's clamped position
      and is never clamped itself, so positions stay within 10 units of
      the dish. */
  predicate NearDish(x: real, y: real) {
    -10.0 <= x <= DishWidth + 10.0 && -10.0 <= y <= DishHeight + 10.0
  }

  /** What holds of every living bacterium of a reachable snapshot. */
  predicate Healthy(b: Bacterium) {
    && b.energy >= 0.0
    && 0.0 < b.health <= 100.0
    && DnaInRange(b.dna)
    && StatsInRange(b.stats)
    && NearDish(b.x, b.y)
  }

  /** A food item as the spawner makes it. */
  predicate IsFreshFood(f: Food) {
    f.energy == FoodEnergy && 0.0 <= f.x < DishWidth && 0.0 <= f.y < DishHeight
  }

  /** The invariant of the simulation: at most 50 bacteria and 30 food
      items, every bacterium healthy and every food item fresh. */
  predicate Valid(s: GameState) {
    && |s.bacteria| <= MaxBacteria
    && |s.food| <= MaxFood
    && (forall b :: b in s.bacteria ==> Healthy(b))
    && (forall f :: f in s.food ==> IsFreshFood(f))
  }

  /** The effect `Init` starts from: one bacterium with the fixed initial
      genome and a random hue, in the middle of the dish, and no food. */
  method Init(rt: Runtime, k: nat) returns (s: GameState, k': nat)
    ensures |s.bacteria| == 1 && s.food == []
    ensures s.bacteria[0].x == DishWidth / 2.0 && s.bacteria[0].y == DishHeight / 2.0
    ensures s.bacteria[0].dna == DNA(rt.random(k) * 360.0, 0.8, 1.2, 1.0, 1.0, 0.0, 1.0, 1.0, 0.5, "initial")
    ensures s.bacteria[0].energy == 100.0 && s.bacteria[0].health == 100.0
    ensures s.bacteria == [NewBacterium(DNA(rt.random(k) * 360.0, 0.8, 1.2, 1.0, 1.0, 0.0, 1.0, 1.0, 0.5, "initial"),
                                        DishWidth / 2.0, DishHeight / 2.0, rt, k + 1)]
    ensures Valid(s)
    ensures k' == k + 4
  {
    var initialDna := DNA(
      colorHue := rt.random(k) * 360.0,
      size := 0.8,
      eccentricity := 1.2,
      eyeSize := 1.0,
      eyeDistance := 1.0,
      mouthCurve := 0.0,
      mouthWidth := 1.0,
      tailLength := 1.0,
      tailWaviness := 0.5,
      seed := "initial");
    var b;
    b, k' := CreateBacterium(initialDna, DishWidth / 2.0, DishHeight / 2.0, rt, k + 1);
    s := GameState([b], []);
  }

  /** Search, steering and physics of one bacterium (the code before
      "Energy and Health loss"): the grid search finds a nearest detected
      food item of the previous snapshot, and the new position, velocity
      and acceleration are what steering towards it gives. */
  method Move(b: Bacterium, grid: Grid, ghost gridFood: seq<Food>, rt: Runtime, k: nat)
    returns (closest: Option<Food>, m: Kinematics, k': nat)
    requires IsGridOf(grid, gridFood)
    ensures IsNearest(gridFood, b.x, b.y, closest)
    ensures (m, k') == Moved(b, closest, rt, k)
  {
    closest := NearestFood(grid, gridFood, b.x, b.y);
    var nax, nay, vx, vy;
    nax, nay, k' := Steer(b, closest, rt, k);
    vx, vy := ApplyVelocity(b.vx, b.vy, nax, nay, b.stats.speed, rt.direction);
    var nx, ny, vx', vy', ax', ay' := Bounce(b.x, b.y, vx, vy, nax, nay);
    m := Kinematics(nx, ny, vx', vy', ax', ay');
  }

  /** What becomes of a bacterium `b` that has moved to `m`, from "Energy
      and Health loss" to the second death check: it metabolises and dies
      if that leaves no health; otherwise it eats the first item of the
      frame's `food` within reach of its new position, then every attacker
      of the previous snapshot `prev` hurts and pushes it, and it dies if
      that leaves no health. Returns the survivor, the food left and the
      index eaten (-1 when none, and always when it starved). */
  function Lived(b: Bacterium, m: Kinematics, prev: seq<Bacterium>, food: seq<Food>, direction: Direction)
    : (r: (Option<Bacterium>, seq<Food>, int))
    requires b.stats.defense != 0
    ensures -1 <= r.2 < |food| && r.1 == Without(food, r.2)
    ensures r.0.Some? ==>
              var p := r.0.value;
              && p.health > 0.0
              && p.id == b.id && p.dna == b.dna && p.stats == b.stats
              && p.x == m.x && p.y == m.y && p.ax == m.ax && p.ay == m.ay
    ensures Metabolize(Vitals(b.energy, b.health), b.dna.size).health <= 0.0 ==> r == (None, food, -1)
    ensures var v := Metabolize(Vitals(b.energy, b.health), b.dna.size);
            v.health > 0.0 ==>
              var i := FirstReachable(food, m.x, m.y, b.dna.size);
              var fed := Fed(v, food, i);
              var health := fed.health - TotalDamage(b, m.x, m.y, prev);
              var push := Knockback(b, m.x, m.y, prev, direction);
              && r.2 == i
              && (r.0.Some? <==> health > 0.0)
              && (r.0.Some? ==>
                    && r.0.value.energy == fed.energy && r.0.value.health == health
                    && r.0.value.vx == m.vx + push.0 && r.0.value.vy == m.vy + push.1)
  {
    var v := Metabolize(Vitals(b.energy, b.health), b.dna.size);
    if v.health <= 0.0 then (None, food, -1)
    else
      var i := FirstReachable(food, m.x, m.y, b.dna.size);
      var fed := Fed(v, food, i);
      var health := fed.health - TotalDamage(b, m.x, m.y, prev);
      var push := Knockback(b, m.x, m.y, prev, direction);
      if health <= 0.0 then (None, Without(food, i), i)
      else
        var p := b.(x := m.x, y := m.y, vx := m.vx + push.0, vy := m.vy + push.1, ax := m.ax, ay := m.ay,
                    energy := fed.energy, health := health);
        (Some(p), Without(food, i), i)
  }

  /** A healthy bacterium that moved into the dish, among bacteria whose
      stats are in range and fresh food, survives healthy if it survives:
      eating never lowers energy below 0 or raises health above 100, and
      combat only lowers health. */
  lemma LivedStaysHealthy(b: Bacterium, m: Kinematics, prev: seq<Bacterium>, food: seq<Food>, direction: Direction)
    requires Healthy(b) && InDish(m.x, m.y)
    requires forall o :: o in prev ==> StatsInRange(o.stats)
    requires forall f :: f in food ==> IsFreshFood(f)
    ensures var r := Lived(b, m, prev, food, direction);
            r.0.Some? ==> Healthy(r.0.value)
  {
    var r := Lived(b, m, prev, food, direction);
    if r.0.Some? {
      var p := r.0.value;
      assert p.energy >= 0.0 by {
        var i := FirstReachable(food, m.x, m.y, b.dna.size);
        if i >= 0 {
          assert food[i] in food;
        }
      }
      assert p.health <= 100.0 by {
        DamageIsNonNegative(b, m.x, m.y, prev);
      }
    }
  }

  /** The code from "Energy and Health loss" to the second death check,
      computing `Lived`. */
  method Survive(b: Bacterium, m: Kinematics, prev: seq<Bacterium>, food: seq<Food>, direction: Direction)
    returns (survivor: Option<Bacterium>, food': seq<Food>, eaten: int)
    requires b.stats.defense != 0
    ensures (survivor, food', eaten) == Lived(b, m, prev, food, direction)
  {
    var vitals := Metabolize(Vitals(b.energy, b.health), b.dna.size);
    if vitals.health <= 0.0 {
      return None, food, -1;
    }
    var fed;
    fed, food', eaten := Eat(vitals, food, m.x, m.y, b.dna.size);
    var health, vx, vy := Fight(b, m.x, m.y, fed.health, m.vx, m.vy, prev, direction);
    if health <= 0.0 {
      return None, food', eaten;
    }
    survivor := Some(b.(x := m.x, y := m.y, vx := vx, vy := vy, ax := m.ax, ay := m.ay,
                        energy := fed.energy, health := health));
  }

  /** `v + (Math.random() - 0.5) * 20`: within 10 of `v`. */
  function Jitter(v: real, draw: Draw): (r: real)
    ensures v - 10.0 <= r < v + 10.0
  {
    v + (draw - 0.5) * 20.0
  }

  /** The child with the mutated genome `d` whose mutation stopped before
      draw `k2`, of a parent at `(x, y)`, and the next unused draw: draws
      `k2` and `k2 + 1` place it up to 10 units from the parent on each
      axis, then `createBacterium` reads three draws. */
  function Placed(d: DNA, k2: nat, x: real, y: real, rt: Runtime): (r: (Bacterium, nat))
    ensures r.0.dna == d
    ensures r.0.stats == StatsFrom(d, SeededRandoms(CompositeSeed(d, rt.show), 4, rt.sin))
    ensures r.0.energy == 100.0 && r.0.health == 100.0
    ensures r.0.x == Jitter(x, rt.random(k2)) && r.0.y == Jitter(y, rt.random(k2 + 1))
    ensures x - 10.0 <= r.0.x < x + 10.0 && y - 10.0 <= r.0.y < y + 10.0
    ensures DnaInRange(d) ==> StatsInRange(r.0.stats)
    ensures r.1 == k2 + 5
  {
    (NewBacterium(d, Jitter(x, rt.random(k2)), Jitter(y, rt.random(k2 + 1)), rt, k2 + 2), k2 + 5)
  }

  /** The child of a parent with genome `dna` at `(x, y)` and the next
      unused draw: the genome `mutateDNA` makes from draw `k` on, placed
      by `Placed`. The child starts with energy and health 100, its genome
      and stats are in range when the parent's genome is, and 15 to 24
      draws are used. */
  function Child(dna: DNA, x: real, y: real, rt: Runtime, k: nat): (r: (Bacterium, nat))
    ensures r.0.dna == MutatedDna(dna, rt, k).0
    ensures r.0.stats == StatsFrom(r.0.dna, SeededRandoms(CompositeSeed(r.0.dna, rt.show), 4, rt.sin))
    ensures r.0.energy == 100.0 && r.0.health == 100.0
    ensures x - 10.0 <= r.0.x < x + 10.0 && y - 10.0 <= r.0.y < y + 10.0
    ensures DnaInRange(dna) ==> DnaInRange(r.0.dna) && StatsInRange(r.0.stats)
    ensures r.1 == MutatedDna(dna, rt, k).1 + 5 && k + 15 <= r.1 <= k + 24
  {
    var (d, k2) := MutatedDna(dna, rt, k);
    Placed(d, k2, x, y, rt)
  }

  /** The `createBacterium` call of the reproduction branch, computing
      `Placed`. */
  method Place(d: DNA, k2: nat, x: real, y: real, rt: Runtime) returns (child: Bacterium, k': nat)
    ensures (child, k') == Placed(d, k2, x, y, rt)
  {
    child, k' := CreateBacterium(d, Jitter(x, rt.random(k2)), Jitter(y, rt.random(k2 + 1)), rt, k2 + 2);
  }

  /** A child of a parent in the dish with its genome in range is healthy. */
  lemma ChildHealthy(dna: DNA, x: real, y: real, rt: Runtime, k: nat)
    requires DnaInRange(dna) && InDish(x, y)
    ensures Healthy(Child(dna, x, y, rt, k).0)
  {
  }

  /** The reproduction branch, computing `Child`. */
  method Offspring(dna: DNA, nx: real, ny: real, rt: Runtime, k: nat) returns (child: Bacterium, k': nat)
    ensures (child, k') == Child(dna, nx, ny, rt, k)
  {
    var childDna, k2 := MutateDNA(dna, rt, k);
    child, k' := Place(childDna, k2, nx, ny, rt);
  }

  /** What a survivor `parent` pushes and the next unused draw: it
      reproduces when it has at least 150 energy and the `born` bacteria
      already pushed plus the `population` of the previous snapshot are
      fewer than 50; it then halves its energy and its child is pushed
      before it. */
  function Reproduction(parent: Bacterium, born: nat, population: nat, rt: Runtime, k: nat)
    : (r: (seq<Bacterium>, nat))
    ensures |r.0| == 1 || |r.0| == 2
    ensures |r.0| == 2 <==> parent.energy >= ReproductionEnergy && born + population < MaxBacteria
    ensures |r.0| == 1 ==> r.0[0] == parent && r.1 == k
    ensures |r.0| == 2 ==> r.0[1] == parent.(energy := parent.energy / 2.0) && (r.0[0], r.1) == Child(parent.dna, parent.x, parent.y, rt, k)
  {
    if parent.energy >= ReproductionEnergy && born + population < MaxBacteria then
      var (child, k') := Child(parent.dna, parent.x, parent.y, rt, k);
      ([child, parent.(energy := parent.energy / 2.0)], k')
    else ([parent], k)
  }

  /** The reproduction step and the final push, computing `Reproduction`. */
  method Reproduce(parent: Bacterium, born: nat, population: nat, rt: Runtime, k: nat)
    returns (out: seq<Bacterium>, k': nat)
    ensures (out, k') == Reproduction(parent, born, population, rt, k)
  {
    var energy := parent.energy;
    out := [];
    k' := k;
    if energy >= ReproductionEnergy && born + population < MaxBacteria {
      energy := energy / 2.0;
      var child;
      child, k' := Offspring(parent.dna, parent.x, parent.y, rt, k);
      out := [child];
    }
    out := out + [parent.(energy := energy)];
    assert out == Reproduction(parent, born, population, rt, k).0;
  }

  /** One bacterium's turn of the frame: the food the search found, its
      motion, the survivor (if any), the index eaten, what it pushed, the
      food left and the next unused draw. */
  datatype Turn = Turn(closest: Option<Food>, moved: Kinematics, survivor: Option<Bacterium>,
                       eaten: int, out: seq<Bacterium>, food: seq<Food>, draw: nat)

  /** The turn of `b` given the food `closest` its search found, against
      the frame's current `food`, the previous snapshot's bacteria `prev`
      and the `born` bacteria already pushed. Nothing is pushed exactly
      when `b` dies; otherwise the survivor is pushed last, with its energy
      halved exactly when a child is pushed before it. */
  function TakeTurn(b: Bacterium, closest: Option<Food>, prev: seq<Bacterium>, food: seq<Food>,
                    born: nat, rt: Runtime, k: nat): (t: Turn)
    requires b.stats.defense != 0
    ensures t.closest == closest
    ensures -1 <= t.eaten < |food| && t.food == Without(food, t.eaten)
    ensures t.out == [] <==> t.survivor.None?
    ensures t.survivor.Some? ==>
              var s := t.survivor.value;
              && 1 <= |t.out| <= 2
              && t.out[|t.out| - 1] == (if |t.out| == 2 then s.(energy := s.energy / 2.0) else s)
              && (|t.out| == 2 <==> s.energy >= ReproductionEnergy && born + |prev| < MaxBacteria)
    ensures forall c :: c in t.out ==> c.health > 0.0
    ensures t.draw >= k
  {
    var (m, k1) := Moved(b, closest, rt, k);
    var (s, food', i) := Lived(b, m, prev, food, rt.direction);
    if s.None? then Turn(closest, m, s, i, [], food', k1)
    else
      var (out, k2) := Reproduction(s.value, born, |prev|, rt, k1);
      Turn(closest, m, s, i, out, food', k2)
  }

  /** From a healthy bacterium, among bacteria whose stats are in range
      and fresh food, everything a turn pushes is healthy. */
  lemma TurnStaysHealthy(b: Bacterium, closest: Option<Food>, prev: seq<Bacterium>, food: seq<Food>,
                         born: nat, rt: Runtime, k: nat)
    requires Healthy(b)
    requires forall o :: o in prev ==> StatsInRange(o.stats)
    requires forall f :: f in food ==> IsFreshFood(f)
    ensures forall c :: c in TakeTurn(b, closest, prev, food, born, rt, k).out ==> Healthy(c)
  {
    var t := TakeTurn(b, closest, prev, food, born, rt, k);
    var moved := Moved(b, closest, rt, k);
    assert t.survivor == Lived(b, moved.0, prev, food, rt.direction).0;
    LivedStaysHealthy(b, moved.0, prev, food, rt.direction);
    if t.survivor.Some? {
      var p := t.survivor.value;
      assert t.out == Reproduction(p, born, |prev|, rt, moved.1).0;
      if |t.out| == 2 {
        ChildHealthy(p.dna, p.x, p.y, rt, moved.1);
        assert Healthy(t.out[1]);
      }
    }
  }

  /** The body of `prev.bacteria.forEach` for one bacterium `b`, computing
      `TakeTurn` for a nearest detected item of the food the grid indexes. */
  method Advance(b: Bacterium, prev: seq<Bacterium>, grid: Grid, ghost gridFood: seq<Food>,
                 food: seq<Food>, born: nat, rt: Runtime, k: nat)
    returns (out: seq<Bacterium>, food': seq<Food>, eaten: int, k': nat, closest: Option<Food>)
    requires b.stats.defense != 0
    requires IsGridOf(grid, gridFood)
    ensures IsNearest(gridFood, b.x, b.y, closest)
    ensures var t := TakeTurn(b, closest, prev, food, born, rt, k);
            out == t.out && food' == t.food && eaten == t.eaten && k' == t.draw
  {
    var m, k1;
    closest, m, k1 := Move(b, grid, gridFood, rt, k);
    var survivor;
    survivor, food', eaten := Survive(b, m, prev, food, rt.direction);
    out, k' := [], k1;
    if survivor.Some? {
      out, k' := Reproduce(survivor.value, born, |prev|, rt, k1);
    }
  }

  /** The bacteria pushed by a sequence of turns, in order. */
  function Outs(turns: seq<Turn>): seq<Bacterium> {
    if turns == [] then [] else Outs(turns[..|turns| - 1]) + turns[|turns| - 1].out
  }

  /** The frame's food list after the turns `before`. */
  function FoodAfter(food: seq<Food>, before: seq<Turn>): seq<Food> {
    if before == [] then food else before[|before| - 1].food
  }

  /** The next unused draw after the turns `before`. */
  function DrawAfter(k: nat, before: seq<Turn>): nat {
    if before == [] then k else before[|before| - 1].draw
  }

  /** `t` is the turn of the bacterium of `prev` that follows the turns
      `before`: it searched the food of `prev`, played against the food
      those turns left, knew how many they pushed, and read draws from
      where they stopped. */
  ghost predicate IsNextTurn(prev: GameState, rt: Runtime, k: nat, before: seq<Turn>, t: Turn) {
    && |before| < |prev.bacteria|
    && var b := prev.bacteria[|before|];
       && b.stats.defense != 0
       && IsNearest(prev.food, b.x, b.y, t.closest)
       && t == TakeTurn(b, t.closest, prev.bacteria, FoodAfter(prev.food, before), |Outs(before)|,
                        rt, DrawAfter(k, before))
  }

  /** `turns` are the turns of the first `|turns|` bacteria of `prev`, in
      order. */
  ghost predicate IsTrace(prev: GameState, rt: Runtime, k: nat, turns: seq<Turn>) {
    if turns == [] then true
    else
      var before := turns[..|turns| - 1];
      IsTrace(prev, rt, k, before) && IsNextTurn(prev, rt, k, before, turns[|turns| - 1])
  }

  /** How many bacteria the cap of 50 leaves room for beyond one per
      bacterium of a snapshot with `population` bacteria. */
  function Room(population: nat): nat {
    if population < MaxBacteria then MaxBacteria - population else 0
  }

  /** What one turn adds to a trace: at most two bacteria, two only while
      the cap leaves room, all of them alive; the food it leaves is part of
      the food it found; from a valid snapshot whose food it found is
      still part of the original, everything it pushes is healthy. */
  lemma NextTurnTotals(prev: GameState, rt: Runtime, k: nat, before: seq<Turn>, t: Turn)
    requires IsNextTurn(prev, rt, k, before, t)
    ensures |t.out| <= 2
    ensures |t.out| == 2 ==> |Outs(before)| + |prev.bacteria| < MaxBacteria
    ensures forall c :: c in t.out ==> c.health > 0.0
    ensures multiset(t.food) <= multiset(FoodAfter(prev.food, before))
    ensures Valid(prev) && multiset(FoodAfter(prev.food, before)) <= multiset(prev.food)
            ==> forall c :: c in t.out ==> Healthy(c)
    ensures t.draw >= DrawAfter(k, before)
  {
    var food := FoodAfter(prev.food, before);
    assert multiset(t.food) <= multiset(food) by {
      if t.eaten >= 0 {
        assert multiset(t.food) + multiset{food[t.eaten]} == multiset(food);
      }
    }
    if Valid(prev) && multiset(food) <= multiset(prev.food) {
      var b := prev.bacteria[|before|];
      assert b in prev.bacteria;
      assert forall f :: f in food ==> f in prev.food by {
        assert forall f :: f in food ==> f in multiset(food);
      }
      TurnStaysHealthy(b, t.closest, prev.bacteria, food, |Outs(before)|, rt, DrawAfter(k, before));
    }
  }

  /** What the turns of a trace add up to: everything pushed lives, at
      most `Room` more than one per turn is pushed and never more than
      two per turn, the food left is part of the food of `prev`, and from
      a valid snapshot everything pushed is healthy. */
  lemma {:induction false} TraceTotals(prev: GameState, rt: Runtime, k: nat, turns: seq<Turn>)
    requires IsTrace(prev, rt, k, turns)
    ensures |Outs(turns)| <= |turns| + Room(|prev.bacteria|)
    ensures |Outs(turns)| <= 2 * |turns|
    ensures forall c :: c in Outs(turns) ==> c.health > 0.0
    ensures multiset(FoodAfter(prev.food, turns)) <= multiset(prev.food)
    ensures Valid(prev) ==> forall c :: c in Outs(turns) ==> Healthy(c)
    ensures DrawAfter(k, turns) >= k
  {
    if turns != [] {
      var before := turns[..|turns| - 1];
      var t := turns[|turns| - 1];
      TraceTotals(prev, rt, k, before);
      NextTurnTotals(prev, rt, k, before, t);
      assert Outs(turns) == Outs(before) + t.out;
    }
  }

  /** Step 3 of `update`, as a function of the food left and the next
      unused draw: while there are fewer than 30 items, draw `k` decides
      (below 0.05) whether one fresh item with energy 40 and a random
      position in the dish is appended. No draw is used at the cap, and
      the list never grows past the larger of its length and 30. */
  function Spawned(food: seq<Food>, rt: Runtime, k: nat): (r: (seq<Food>, nat))
    ensures |food| >= MaxFood ==> r == (food, k)
    ensures |food| < MaxFood && rt.random(k) >= FoodSpawnRate ==> r == (food, k + 1)
    ensures |food| < MaxFood && rt.random(k) < FoodSpawnRate ==>
              && |r.0| == |food| + 1 && r.0[..|food|] == food
              && IsFreshFood(r.0[|food|]) && r.0[|food|].id == rt.idOf(rt.random(k + 1))
              && r.1 == k + 4
    ensures |r.0| <= MaxInt(|food|, MaxFood)
  {
    if |food| >= MaxFood then (food, k)
    else if rt.random(k) >= FoodSpawnRate then (food, k + 1)
    else
      var f := Food(
        id := rt.idOf(rt.random(k + 1)),
        x := rt.random(k + 2) * DishWidth,
        y := rt.random(k + 3) * DishHeight,
        energy := FoodEnergy);
      (food + [f], k + 4)
  }

  /** Step 3 of `update`, computing `Spawned`. */
  method SpawnFood(food: seq<Food>, rt: Runtime, k: nat) returns (food': seq<Food>, k': nat)
    ensures (food', k') == Spawned(food, rt, k)
  {
    food', k' := food, k;
    if |food| < MaxFood {
      k' := k + 1;
      if rt.random(k) < FoodSpawnRate {
        food' := food + [Food(
          id := rt.idOf(rt.random(k + 1)),
          x := rt.random(k + 2) * DishWidth,
          y := rt.random(k + 3) * DishHeight,
          energy := FoodEnergy)];
        k' := k + 4;
      }
    }
  }

  /** Step 2 of `update`: the turns of the bacteria of `prev`, in order.
      What is pushed is exactly what those turns push and the food left is
      what the last turn left; by `TraceTotals` the pushed bacteria all
      live, at most `Room` more than one per bacterium of `prev` are
      pushed, every food item left was in `prev`, and the eaten ones are
      accounted for. */
  method AdvanceAll(prev: GameState, grid: Grid, rt: Runtime, k: nat)
    returns (nextBacteria: seq<Bacterium>, nextFood: seq<Food>, k': nat,
             ghost turns: seq<Turn>, ghost eaten: multiset<Food>)
    requires forall b :: b in prev.bacteria ==> b.stats.defense != 0
    requires IsGridOf(grid, prev.food)
    ensures |turns| == |prev.bacteria| && IsTrace(prev, rt, k, turns)
    ensures nextBacteria == Outs(turns)
    ensures nextFood == FoodAfter(prev.food, turns)
    ensures k' == DrawAfter(k, turns) && k' >= k
    ensures |nextBacteria| <= |prev.bacteria| + Room(|prev.bacteria|)
    ensures |nextBacteria| <= 2 * |prev.bacteria|
    ensures forall c :: c in nextBacteria ==> c.health > 0.0
    ensures multiset(nextFood) + eaten == multiset(prev.food)
    ensures forall f :: f in nextFood ==> f in prev.food
    ensures Valid(prev) ==> forall c :: c in nextBacteria ==> Healthy(c)
  {
    nextBacteria := [];
    nextFood := prev.food;
    k' := k;
    turns := [];
    for i := 0 to |prev.bacteria|
      invariant |turns| == i && IsTrace(prev, rt, k, turns)
      invariant nextBacteria == Outs(turns)
      invariant nextFood == FoodAfter(prev.food, turns)
      invariant k' == DrawAfter(k, turns)
    {
      var b := prev.bacteria[i];
      assert b in prev.bacteria;
      var out, food', index, k1, closest := Advance(b, prev.bacteria, grid, prev.food, nextFood, |nextBacteria|, rt, k');
      ghost var t := TakeTurn(b, closest, prev.bacteria, nextFood, |nextBacteria|, rt, k');
      assert (turns + [t])[..i] == turns;
      turns := turns + [t];
      nextBacteria := nextBacteria + out;
      nextFood := food';
      k' := k1;
    }
    TraceTotals(prev, rt, k, turns);
    eaten := multiset(prev.food) - multiset(nextFood);
    assert forall f :: f in nextFood ==> f in prev.food by {
      assert forall f :: f in nextFood ==> f in multiset(nextFood);
    }
  }

  /** `update`'s state transition from `prev` to the next snapshot: the
      bacteria are exactly what the turns of `prev`'s bacteria push, in
      order, and the food is what they leave plus what the spawner adds.

      Hence dead bacteria are gone and every bacterium has positive
      health; the population grows past 50 only if it already was past
      it; every food item either survives from `prev` or is the one
      spawned this frame, and the eaten ones are accounted for. From a
      valid snapshot the next one is valid. */
  method Step(prev: GameState, rt: Runtime, k: nat)
    returns (next: GameState, k': nat, ghost turns: seq<Turn>, ghost eaten: multiset<Food>)
    requires forall b :: b in prev.bacteria ==> b.stats.defense != 0
    ensures |turns| == |prev.bacteria| && IsTrace(prev, rt, k, turns)
    ensures next.bacteria == Outs(turns)
    ensures (next.food, k') == Spawned(FoodAfter(prev.food, turns), rt, DrawAfter(k, turns))
    ensures k' >= k
    ensures forall b :: b in next.bacteria ==> b.health > 0.0
    ensures |next.bacteria| <= MaxInt(|prev.bacteria|, MaxBacteria)
    ensures |next.bacteria| <= 2 * |prev.bacteria|
    ensures eaten <= multiset(prev.food)
    ensures var survivors := multiset(prev.food) - eaten;
            multiset(next.food) == survivors
            || (exists f :: IsFreshFood(f) && multiset(next.food) == survivors + multiset{f})
    ensures Valid(prev) ==> Valid(next)
  {
    var grid := BuildGrid(prev.food);
    var nextBacteria, survivors, k1;
    nextBacteria, survivors, k1, turns, eaten := AdvanceAll(prev, grid, rt, k);
    var nextFood;
    nextFood, k' := SpawnFood(survivors, rt, k1);
    next := GameState(nextBacteria, nextFood);
    StepTotals(prev, next, survivors, eaten, rt, k1);
  }

  /** The bounds of `Step` from those of `AdvanceAll` and `Spawned`. */
  lemma StepTotals(prev: GameState, next: GameState, survivors: seq<Food>, eaten: multiset<Food>,
                   rt: Runtime, k: nat)
    requires |next.bacteria| <= |prev.bacteria| + Room(|prev.bacteria|)
    requires multiset(survivors) + eaten == multiset(prev.food)
    requires forall f :: f in survivors ==> f in prev.food
    requires Valid(prev) ==> forall c :: c in next.bacteria ==> Healthy(c)
    requires next.food == Spawned(survivors, rt, k).0
    ensures |next.bacteria| <= MaxInt(|prev.bacteria|, MaxBacteria)
    ensures eaten <= multiset(prev.food)
    ensures var rest := multiset(prev.food) - eaten;
            multiset(next.food) == rest
            || (exists f :: IsFreshFood(f) && multiset(next.food) == rest + multiset{f})
    ensures Valid(prev) ==> Valid(next)
  {
    assert multiset(prev.food) - eaten == multiset(survivors);
    if |next.food| != |survivors| {
      var f := next.food[|survivors|];
      assert next.food == survivors + [f];
      assert multiset(next.food) == multiset(survivors) + multiset{f};
    }
    if Valid(prev) {
      assert |survivors| <= |prev.food| by {
        assert |multiset(survivors)| <= |multiset(prev.food)|;
      }
    }
  }

  /** `next` and `k'` are what one frame of `update` makes of `prev` from
      draw `k`: the bacteria some trace of turns pushes, and the food and
      draw index the spawner leaves after it. */
  ghost predicate IsStep(prev: GameState, rt: Runtime, k: nat, next: GameState, k': nat) {
    exists turns: seq<Turn> ::
      && |turns| == |prev.bacteria|
      && IsTrace(prev, rt, k, turns)
      && next.bacteria == Outs(turns)
      && (next.food, k') == Spawned(FoodAfter(prev.food, turns), rt, DrawAfter(k, turns))
  }

  /** The trace `Step` returns witnesses `IsStep`. */
  lemma StepIsStep(prev: GameState, rt: Runtime, k: nat, next: GameState, k': nat, turns: seq<Turn>)
    requires |turns| == |prev.bacteria| && IsTrace(prev, rt, k, turns)
    requires next.bacteria == Outs(turns)
    requires (next.food, k') == Spawned(FoodAfter(prev.food, turns), rt, DrawAfter(k, turns))
    ensures IsStep(prev, rt, k, next, k')
  {
  }

  /** The animation loop: `frames` successive frames from `s`, each one
      `IsStep` of the one before; `trace` lists the snapshots and draw
      indices in order. A valid snapshot stays valid however many frames
      run, so the population never exceeds 50 and the food never exceeds
      30, and no draw is read twice. */
  method Run(s: GameState, frames: nat, rt: Runtime, k: nat)
    returns (t: GameState, k': nat, ghost trace: seq<(GameState, nat)>)
    requires Valid(s)
    ensures |trace| == frames + 1 && trace[0] == (s, k) && trace[frames] == (t, k')
    ensures forall n :: 0 <= n < frames ==> IsStep(trace[n].0, rt, trace[n].1, trace[n + 1].0, trace[n + 1].1)
    ensures Valid(t)
    ensures |t.bacteria| <= MaxBacteria && |t.food| <= MaxFood
    ensures k' >= k
  {
    t, k' := s, k;
    trace := [(s, k)];
    for n := 0 to frames
      invariant |trace| == n + 1 && trace[0] == (s, k) && trace[n] == (t, k')
      invariant forall j :: 0 <= j < n ==> IsStep(trace[j].0, rt, trace[j].1, trace[j + 1].0, trace[j + 1].1)
      invariant Valid(t)
      invariant k' >= k
    {
      ghost var prev, k0 := t, k';
      ghost var turns, eaten;
      t, k', turns, eaten := Step(t, rt, k');
      StepIsStep(prev, rt, k0, t, k', turns);
      trace := trace + [(t, k')];
    }
  }
}
