/** Energy drain, starvation and eating (PetriDish.tsx, "Energy and
    Health loss" to "Interaction with food"). */
module Metabolism {
  import opened DishModel

  datatype Vitals = Vitals(energy: real, health: real)

  /** One frame of metabolism: energy drops by `0.08 * size`; if it is
      then at most 0 it becomes 0 and health drops by `0.5 * size`.
      Energy never ends negative, and a non-negative size never raises
      health. */
  function Metabolize(v: Vitals, size: real): (r: Vitals)
    ensures r.energy >= 0.0
    ensures size >= 0.0 ==> r.health <= v.health
    ensures r.energy == 0.0 || r.health == v.health
  {
    var energy := v.energy - EnergyLossPerFrame * size;
    if energy <= 0.0 then Vitals(0.0, v.health - 0.5 * size)
    else Vitals(energy, v.health)
  }

  /** `t` frames of metabolism with nothing eaten and nothing fought. */
  function Starve(v: Vitals, size: real, t: nat): Vitals {
    if t == 0 then v else Metabolize(Starve(v, size, t - 1), size)
  }

  /** While energy lasts it falls by exactly `0.08 * size` a frame and
      health is untouched. */
  lemma {:induction false} EnergyFallsLinearly(v: Vitals, size: real, t: nat)
    requires size >= 0.0
    requires v.energy - EnergyLossPerFrame * size * t as real > 0.0
    ensures Starve(v, size, t) == Vitals(v.energy - EnergyLossPerFrame * size * t as real, v.health)
  {
    if t > 0 {
      var drained := EnergyLossPerFrame * size;
      assert drained * t as real == drained * (t - 1) as real + drained;
      assert drained >= 0.0;
      assert drained * (t - 1) as real <= drained * t as real by {
        assert drained * t as real - drained * (t - 1) as real == drained;
      }
      EnergyFallsLinearly(v, size, t - 1);
    }
  }

  /** Once energy is exhausted it stays 0 and health falls by exactly
      `0.5 * size` a frame. */
  lemma {:induction false} StarvationCostsHealth(v: Vitals, size: real, t: nat)
    requires size >= 0.0 && v.energy == 0.0
    ensures Starve(v, size, t) == Vitals(0.0, v.health - 0.5 * size * t as real)
  {
    if t > 0 {
      StarvationCostsHealth(v, size, t - 1);
      assert 0.5 * size * t as real == 0.5 * size * (t - 1) as real + 0.5 * size;
    }
  }

  /** `Math.sqrt((f.x - x) ** 2 + (f.y - y) ** 2) < 20 * size`. */
  predicate CanEat(f: Food, x: real, y: real, size: real) {
    Within(f.x - x, f.y - y, 20.0 * size)
  }

  /** The index of the first food item within reach, or -1 when there is
      none, found from the front. */
  function FirstReachable(food: seq<Food>, x: real, y: real, size: real): (i: int)
    ensures -1 <= i < |food|
    ensures i == -1 <==> forall j :: 0 <= j < |food| ==> !CanEat(food[j], x, y, size)
    ensures i >= 0 ==> CanEat(food[i], x, y, size)
    ensures forall j :: 0 <= j < i ==> !CanEat(food[j], x, y, size)
  {
    if food == [] then -1
    else if CanEat(food[0], x, y, size) then 0
    else
      var i := FirstReachable(food[1..], x, y, size);
      if i == -1 then -1 else i + 1
  }

  /** `nextFood.findIndex(...)`, scanning from the left. */
  method FindFood(food: seq<Food>, x: real, y: real, size: real) returns (index: int)
    ensures index == FirstReachable(food, x, y, size)
  {
    index := 0;
    while index < |food|
      invariant 0 <= index <= |food|
      invariant forall j :: 0 <= j < index ==> !CanEat(food[j], x, y, size)
    {
      if CanEat(food[index], x, y, size) {
        return;
      }
      index := index + 1;
    }
    index := -1;
  }

  /** The vitals after eating the item at `index` (none when -1): energy
      rises by the item's energy and health becomes
      `min(100, health + 10)`. */
  function Fed(v: Vitals, food: seq<Food>, index: int): (r: Vitals)
    requires -1 <= index < |food|
    ensures index < 0 ==> r == v
    ensures index >= 0 ==> r.energy == v.energy + food[index].energy
    ensures index >= 0 ==> Min(v.health, 100.0) <= r.health <= 100.0
  {
    if index >= 0 then Vitals(v.energy + food[index].energy, Min(100.0, v.health + 10.0))
    else v
  }

  /** The food list with the item at `index` spliced out (none when -1). */
  function Without(food: seq<Food>, index: int): (r: seq<Food>)
    requires -1 <= index < |food|
    ensures index < 0 ==> r == food
    ensures index >= 0 ==> |r| == |food| - 1 && r[..index] == food[..index] && r[index..] == food[index + 1..]
    ensures index >= 0 ==> multiset(r) + multiset{food[index]} == multiset(food)
  {
    if index >= 0 then
      assert food == food[..index] + [food[index]] + food[index + 1..];
      food[..index] + food[index + 1..]
    else food
  }

  /** Eating: the first food item within reach, if any, feeds the
      bacterium and is spliced out of the frame's food list, so nothing
      else can eat it. */
  method Eat(v: Vitals, food: seq<Food>, x: real, y: real, size: real)
    returns (v': Vitals, food': seq<Food>, index: int)
    ensures index == FirstReachable(food, x, y, size)
    ensures v' == Fed(v, food, index)
    ensures food' == Without(food, index)
  {
    index := FindFood(food, x, y, size);
    v' := v;
    food' := food;
    if index != -1 {
      v' := Vitals(v.energy + food[index].energy, Min(100.0, v.health + 10.0));
      food' := food[..index] + food[index + 1..];
    }
  }
}
