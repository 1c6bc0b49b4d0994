/** The records, constants and runtime services of the petri-dish
    simulation (src/components/PetriDish.tsx). */
module DishModel {
  import opened CellStats

  const DishWidth: real := 800.0
  const DishHeight: real := 600.0
  const MaxBacteria: nat := 50
  const FoodSpawnRate: real := 0.05
  const MaxFood: nat := 30
  const EnergyLossPerFrame: real := 0.08
  const ReproductionEnergy: real := 150.0
  const MutationRate: real := 0.2
  const DetectionRange: real := 150.0
  const GridSize: real := 50.0

  /** Energy of every spawned food item. */
  const FoodEnergy: real := 40.0

  datatype Option<T> = None | Some(value: T)

  /** An agent. `stats` is derived from `dna` once, when the agent is
      created, and carried unchanged afterwards. */
  datatype Bacterium = Bacterium(
    id: string,
    dna: DNA,
    x: real, y: real,
    vx: real, vy: real,
    ax: real, ay: real,
    energy: real,
    health: real,
    stats: Stats)

  datatype Food = Food(id: string, x: real, y: real, energy: real)

  /** The snapshot `{bacteria, food}` that one frame maps to the next. */
  datatype GameState = GameState(bacteria: seq<Bacterium>, food: seq<Food>)

  /** A draw: a value of `Math.random()`, in [0, 1). */
  type Draw = r: real | 0.0 <= r < 1.0

  predicate IsUnitVector(v: (real, real)) {
    v.0 * v.0 + v.1 * v.1 == 1.0
  }

  /** `(dx, dy) => (Math.cos(a), Math.sin(a))` with `a = Math.atan2(dy, dx)`:
      of that pair only its unit length is modelled. */
  type Direction = f: (real, real) -> (real, real)
    | forall dx: real, dy: real :: IsUnitVector(f(dx, dy))
    witness (dx: real, dy: real) => (1.0, 0.0)

  /** What the JavaScript runtime supplies to the step: the stream of
      `Math.random()` values (draw `k` is `random(k)`), the id text
      `Math.random().toString(36).substr(2, 9)` made from a draw, the
      direction of a vector, `Math.sin`, and number-to-text conversion. */
  datatype Runtime = Runtime(
    random: nat -> Draw,
    idOf: Draw -> string,
    direction: Direction,
    sin: real -> real,
    show: real -> string)

  function Min(a: real, b: real): real {
    if a <= b then a else b
  }

  function Max(a: real, b: real): real {
    if a >= b then a else b
  }

  /** The larger of two counts. */
  function MaxInt(a: int, b: int): int {
    if a >= b then a else b
  }

  function Abs(a: real): real {
    if a < 0.0 then -a else a
  }

  function Sq(a: real): real {
    a * a
  }

  function Norm2(vx: real, vy: real): real {
    vx * vx + vy * vy
  }

  /** `Math.sqrt(dx * dx + dy * dy) < r`, decided without the root. */
  predicate Within(dx: real, dy: real, r: real) {
    r > 0.0 && Norm2(dx, dy) < r * r
  }

  /** `Math.max(lo, Math.min(hi, v))`. */
  function Clamp(v: real, lo: real, hi: real): (r: real)
    requires lo <= hi
    ensures lo <= r <= hi
    ensures lo <= v <= hi ==> r == v
  {
    Max(lo, Min(hi, v))
  }

  predicate InDish(x: real, y: real) {
    0.0 <= x <= DishWidth && 0.0 <= y <= DishHeight
  }
}
