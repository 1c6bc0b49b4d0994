# Petri-dish simulation: a Dafny model

This project models the simulation core of a small browser game. In the
game, bacteria live in an 800 × 600 petri dish.

- **Genome and stats.** Each bacterium carries a genome (`CellDNA`: hue,
  size, eccentricity, eye, mouth and tail traits, and a seed string). Its
  four combat stats (speed, defense, attack, reaction) are derived from
  the genome by `calculateStats`. That function hashes a seed string to
  32 bits, feeds the hash to a `sin`-based pseudo-random generator, and
  applies four linear formulas rounded to integers.
- **One frame (`update`).** Each animation frame maps the snapshot
  `{bacteria, food}` to the next one:
  1. bucket the food into a 50-unit grid;
  2. for each bacterium of the previous snapshot, in order:
     - find the nearest food within 150 through the grid;
     - steer towards it or roam;
     - integrate velocity with friction and a speed cap;
     - move, bounce off the walls and clamp to the dish;
     - lose energy, and health when starving, and die at health ≤ 0;
     - eat the first food item within reach, removing it from the list;
     - take chip damage and knockback from every hue-enemy in contact,
       and die at health ≤ 0;
     - reproduce when energy ≥ 150 and the population cap of 50 leaves
       room: halve energy and push a mutated child;
  3. spawn at most one food item while fewer than 30 exist.

Modules, one per stage of the program:

| module | file | models |
|---|---|---|
| `CellStats` | `cell_stats.dfy` | `CellDNA`, `calculateStats`, `getSeededRandoms`, the string hash |
| `DishModel` | `dish_model.dfy` | the `Bacterium`/`Food` records, the constants, the runtime services |
| `FoodGrid` | `food_grid.dfy` | the food grid and the nearest-food search |
| `Motion` | `motion.dfy` | steering, velocity, speed cap, bounce and clamp |
| `Metabolism` | `metabolism.dfy` | energy drain, starvation, eating |
| `Combat` | `combat.dfy` | damage and knockback between hue-enemies |
| `Breeding` | `breeding.dfy` | `mutateDNA`, `createBacterium` |
| `Simulation` | `simulation.dfy` | the whole frame, the initial state, food spawning |

How the model treats what JavaScript supplies:

- **Randomness.** All randomness comes from a `Runtime` value. `random(k)`
  is the k-th `Math.random()` draw, in [0, 1). Every operation that draws
  takes the index of its first draw and returns the next unused index.
  Draws are used in JavaScript evaluation order.
- **Ids.** `Runtime.idOf` turns a draw into an id string, in place of
  `Math.random().toString(36).substr(2, 9)`.
- **Directions.** `Runtime.direction` stands for
  `(cos(atan2(dy, dx)), sin(atan2(dy, dx)))`. The model knows only that
  it returns a unit vector. The speed cap's `v / |v|` uses the same
  function.
- **Other services.** `Runtime.sin` stands for `Math.sin`, and
  `Runtime.show` for number-to-text conversion.
- **Numbers.** Numbers are `real`. Every `Math.sqrt(q) < r` comparison is
  decided as `q < r * r` with `r > 0`, which is equivalent. The 32-bit
  wrap of the string hash is written out (`ToInt32`).

## Model

| member | source | states |
|---|---|---|
| CellStats.ToInt32 | src/components/Cell.tsx:25 | `x & x` is the signed 32-bit value congruent to `x` mod 2^32, and the identity on 32-bit values |
| CellStats.Utf16 | src/components/Cell.tsx:22-23 | the code units `charCodeAt` visits: between `|s|` and `2|s|` of them, each below 0x10000 |
| CellStats.HashStep | src/components/Cell.tsx:24-25 | one pass of the hash loop leaves the hash in the signed 32-bit range |
| CellStats.StringHash | src/components/Cell.tsx:21-26 | the hash of any code-unit sequence is a signed 32-bit value |
| CellStats.StepPreservesCongruence | src/components/Cell.tsx:24-25 | one wrapped hash step keeps the hash congruent mod 2^32 to the exact step `31 * h + c` |
| CellStats.StringHashIsPolynomial | src/components/Cell.tsx:21-26 | the 32-bit hash differs from the base-31 polynomial hash by a multiple of 2^32 |
| CellStats.HashString | src/components/Cell.tsx:21-26 | the hash loop computes `StringHash` of the string's code units and ends in the 32-bit range |
| CellStats.Frac | src/components/Cell.tsx:32 | `x - floor(x)` lies in [0, 1) and differs from `x` by an integer |
| CellStats.SeededRandoms | src/components/Cell.tsx:28-34 | exactly `count` values, each in [0, 1) |
| CellStats.GetSeededRandoms | src/components/Cell.tsx:20-35 | the generator's loops return `SeededRandoms`: `count` values in [0, 1) |
| CellStats.Round | src/components/Cell.tsx:65-70 | `Math.round(x)` is the integer within half a unit of `x`, halves rounded up |
| CellStats.CompositeSeed | src/components/Cell.tsx:38 | the composite seed string starts with the genome's own seed, followed by the nine traits with a `-` before each |
| CellStats.StatsFrom | src/components/Cell.tsx:41-70 | with traits in range and randoms in [0, 1): speed in [53, 140], defense in [35, 95], attack in [30, 95], reaction in [20, 65] |
| CellStats.CalculateStats | src/components/Cell.tsx:16-71 | the stats are the formulas over the four seeded randoms of the composite seed, and in range when the traits are |
| CellStats.SizeTradesSpeedForDefense | src/components/Cell.tsx:42-53 | a larger size strictly lowers raw speed and strictly raises raw defense, and does not reverse either after rounding |
| CellStats.MouthTradesAttackForReaction | src/components/Cell.tsx:56-63 | a larger `mouthCurve` never raises attack and never lowers reaction |
| CellStats.RawStatFloors | src/components/Cell.tsx:42-53 | with traits in range, raw speed ≥ 52.5 (the speed cap is positive) and raw defense ≥ 35 (the combat division is safe) |
| DishModel.Clamp | src/components/PetriDish.tsx:202-203 | `max(lo, min(hi, v))` lies in [lo, hi] and is `v` when `v` already does |
| FoodGrid.Ceil | src/components/PetriDish.tsx:137 | `Math.ceil(x)` is the least integer ≥ `x` |
| FoodGrid.Bucket | src/components/PetriDish.tsx:119-125 | a bucket holds only items of the food list whose cell is that bucket's |
| FoodGrid.InOwnBucket | src/components/PetriDish.tsx:120-124 | every food item is in the bucket of cell `(floor(x/50), floor(y/50))` |
| FoodGrid.BuildGrid | src/components/PetriDish.tsx:118-125 | the grid maps exactly the non-empty cells to their buckets, in list order |
| FoodGrid.LinearNearest | src/components/PetriDish.tsx:132-152 | the brute-force scan returns an item within 150 at minimal distance over all food, or none when nothing is within 150 |
| FoodGrid.NearestIsUnique | src/components/PetriDish.tsx:132-152 | two nearest-food answers agree on whether food was found and on its distance |
| FoodGrid.ScanCoversDetection | src/components/PetriDish.tsx:135-140 | `ceil(150/50) = 3` cells on each side cover every item within 150 |
| FoodGrid.ScanBucket | src/components/PetriDish.tsx:143-149 | after a bucket the bound is at most every item's distance; it only shrinks; a new answer is a strictly closer item of the bucket |
| FoodGrid.ScanColumn | src/components/PetriDish.tsx:140-151 | after a column of cells every item in those cells has been seen, and the search state stays consistent |
| FoodGrid.NearestFood | src/components/PetriDish.tsx:132-152 | the grid search returns an item within 150 at minimal distance over all food, or none when nothing is within 150; it agrees with `LinearNearest` |
| Motion.ScaledUnitLength | src/components/PetriDish.tsx:161-162 | a unit vector scaled by `s` has squared length `s²` |
| Motion.Steering | src/components/PetriDish.tsx:154-171 | with food in sight no draw is used and the impulse added to the damped acceleration `0.85 * a` has length exactly `0.85 * 0.2 * reaction/50`; when roaming draws `k` and `k + 1` are used and each component of that impulse is at most `0.85 * 0.075` |
| Motion.Steer | src/components/PetriDish.tsx:154-171 | computes `Steering`: with food in sight each axis becomes `0.85 * (a + u * 0.2 * reaction/50)` with `u` the unit vector towards the food, and no draw is used; when roaming each axis becomes `0.85 * (a + (random - 0.5) * 0.15)` with draws `k` and `k + 1` |
| Motion.Velocity | src/components/PetriDish.tsx:173-187 | after friction and the cap, speed ≤ `speed/30`; the cap changes nothing when the speed is already within it; a capped velocity has exactly the cap's length |
| Motion.ApplyVelocity | src/components/PetriDish.tsx:173-187 | the friction and speed-cap code computes `Velocity` |
| Motion.Bounced | src/components/PetriDish.tsx:189-203 | the position ends in [0,800]×[0,600] as the clamped tentative position; an overshooting axis halves and reverses its velocity and negates its acceleration, the other axis is untouched; a bounce never speeds up |
| Motion.Bounce | src/components/PetriDish.tsx:189-203 | the move, bounce and clamp code computes `Bounced` |
| Motion.Moved | src/components/PetriDish.tsx:154-203 | steering, velocity and bounce in order end inside the dish no faster than the cap, and use two draws exactly when no food is in sight |
| Metabolism.Metabolize | src/components/PetriDish.tsx:206-213 | energy never ends negative; health only falls (for size ≥ 0), and only when energy ran out |
| Metabolism.EnergyFallsLinearly | src/components/PetriDish.tsx:206 | while energy lasts it falls by exactly `0.08 * size` a frame and health is untouched |
| Metabolism.StarvationCostsHealth | src/components/PetriDish.tsx:209-213 | once energy is 0 it stays 0 and health falls by exactly `0.5 * size` a frame |
| Metabolism.FirstReachable | src/components/PetriDish.tsx:218-221 | the index of the first food item within `20 * size` of the position, or -1 exactly when none is |
| Metabolism.FindFood | src/components/PetriDish.tsx:218-221 | the `findIndex` loop computes `FirstReachable` |
| Metabolism.Fed | src/components/PetriDish.tsx:222-224 | eating nothing changes nothing; eating adds the item's energy and brings health to `min(100, health + 10)`, never above 100 and never below the old health capped at 100 |
| Metabolism.Without | src/components/PetriDish.tsx:225 | `splice(index, 1)` removes exactly the item at `index`, keeping the others in order, and is the identity for -1 |
| Metabolism.Eat | src/components/PetriDish.tsx:218-226 | the index eaten is `FirstReachable`; energy rises by that item's energy and health becomes `min(100, health + 10)`; the item is spliced out; nothing changes when none is within reach |
| Combat.HueDistance | src/components/PetriDish.tsx:232-233 | the circular hue distance `min(d, 360 - d)` is at most 180, and non-negative when the hues are less than a full turn apart |
| Combat.HueDistanceIsSymmetric | src/components/PetriDish.tsx:232-233 | the circular hue distance is symmetric and in [0, 180] for hues on the circle |
| Combat.TotalDamage | src/components/PetriDish.tsx:235-238 | the damage summed over the snapshot, `attack / defense * 0.1` per attacker in contact; its properties are stated by `Fight`, `CombatIsAdditive`, `OwnIdIsSkipped`, `FriendsAreHarmless`, `DamageIsNonNegative` and `EnemyContactHurts` |
| Combat.Knockback | src/components/PetriDish.tsx:239-242 | the knockback summed over the snapshot, a push of length 0.2 away from each attacker in contact; its properties are stated by `Fight`, `CombatIsAdditive`, `OwnIdIsSkipped` and `FriendsAreHarmless` |
| Combat.Fight | src/components/PetriDish.tsx:229-244 | health falls by the total damage of the attackers in the snapshot, and velocity gains their total knockback |
| Combat.CombatIsAdditive | src/components/PetriDish.tsx:229-244 | damage and knockback add up over any split of the snapshot |
| Combat.OwnIdIsSkipped | src/components/PetriDish.tsx:230 | an entry with the bacterium's own id changes neither damage nor knockback |
| Combat.FriendsAreHarmless | src/components/PetriDish.tsx:232-235 | when every hue is within 45 degrees, damage and knockback are zero whatever the distances |
| Combat.DamageIsNonNegative | src/components/PetriDish.tsx:237-238 | with positive defense and non-negative attacks, combat never raises health |
| Combat.EnemyContactHurts | src/components/PetriDish.tsx:235-238 | one enemy in contact with positive attack makes the total damage strictly positive |
| Breeding.Set | src/components/PetriDish.tsx:76 | writing `dna[key]` changes that trait only and keeps the seed |
| Breeding.DnaInRangeByTrait | src/components/PetriDish.tsx:79-85 | the documented trait ranges are the hue circle plus the clamping ranges `mutateDNA` uses |
| Breeding.Rem360 | src/components/PetriDish.tsx:76 | JavaScript `a % 360` lies in [0, 360) for `a ≥ 0`, in (-360, 0] for `a < 0`, and is `a` on [0, 360) |
| Breeding.MutatedHue | src/components/PetriDish.tsx:76 | a hue in [0, 360] with noise in [-60, 60) yields a hue in [0, 360) |
| Breeding.MutatedTrait | src/components/PetriDish.tsx:78-85 | a mutated non-hue trait is clamped into its range whatever the parent value was |
| Breeding.MutateKey | src/components/PetriDish.tsx:74-87 | a key whose draw is ≥ 0.2 is copied unchanged with one draw; otherwise only that trait changes, by the hue or clamp rule, with two draws; ranges are kept |
| Breeding.MutateKeys | src/components/PetriDish.tsx:69-88 | between one and two draws per key; the seed and every trait not visited are kept; traits in range stay in range |
| Breeding.NoLowDrawNoMutation | src/components/PetriDish.tsx:74-75 | when no draw is below 0.2 every trait is copied, with one draw per key |
| Breeding.MutateTrait | src/components/PetriDish.tsx:74-87 | the `forEach` callback computes `MutateKey` |
| Breeding.MutatedDna | src/components/PetriDish.tsx:67-90 | the genome after the seed draw and the key loop (`MutateKeys` from draw `k + 1`) has the new seed, keeps traits in range, and uses 10 to 19 draws |
| Breeding.MutateDNA | src/components/PetriDish.tsx:67-90 | `mutateDNA` computes `MutatedDna`: the seed draw, then the keys in their order |
| Breeding.NewBacterium | src/components/PetriDish.tsx:50-65 | a new agent at the given position with the given genome, energy 100, health 100, no acceleration, velocity components in [-1, 1), and the stats `calculateStats` derives from the genome, in range when the genome is |
| Breeding.CreateBacterium | src/components/PetriDish.tsx:50-65 | `createBacterium` computes `NewBacterium` and uses three draws |
| Simulation.Init | src/components/PetriDish.tsx:92-109 | the snapshot holds exactly one bacterium: the one `createBacterium` (`NewBacterium`) builds from the fixed initial genome with a drawn hue, in the middle of the dish; there is no food; the state is valid and four draws are used |
| Simulation.Move | src/components/PetriDish.tsx:131-203 | the grid search answers a nearest detected item of the previous snapshot's food (`IsNearest`), and the new position, velocity, acceleration and draw index are `Moved` of that answer |
| Simulation.Lived | src/components/PetriDish.tsx:205-246 | death by metabolism leaves the food untouched and eats nothing; otherwise the index eaten is `FirstReachable` at the new position and that item is spliced out; the bacterium dies exactly when health after feeding and `TotalDamage` is ≤ 0; a survivor keeps its id, genome and stats, has the new position and acceleration, energy and health from `Fed` and `TotalDamage`, and velocity plus `Knockback` |
| Simulation.LivedStaysHealthy | src/components/PetriDish.tsx:205-246 | a healthy bacterium that moved into the dish, among bacteria with stats in range and fresh food, survives healthy if it survives |
| Simulation.Survive | src/components/PetriDish.tsx:205-246 | the code from the energy loss to the second death check computes `Lived` |
| Simulation.Jitter | src/components/PetriDish.tsx:252 | `v + (random - 0.5) * 20` lies within 10 of `v` |
| Simulation.Placed | src/components/PetriDish.tsx:252 | the child with genome `d` is placed at the jitter of draws `k2` and `k2 + 1`, has the stats `calculateStats` gives for `d`, energy and health 100, and stats in range when `d` is; five draws are used |
| Simulation.Place | src/components/PetriDish.tsx:252 | the `createBacterium` call of the reproduction branch computes `Placed` |
| Simulation.Child | src/components/PetriDish.tsx:251-252 | the child's genome is `MutatedDna` of the parent's and its stats are `calculateStats` of that genome; energy and health 100; within 10 of the parent on each axis; genome and stats in range when the parent's genome is; 15 to 24 draws |
| Simulation.ChildHealthy | src/components/PetriDish.tsx:251-252 | the child of a parent in the dish whose genome is in range is healthy |
| Simulation.Offspring | src/components/PetriDish.tsx:251-252 | the reproduction branch computes `Child` |
| Simulation.Reproduction | src/components/PetriDish.tsx:248-255 | a child is pushed exactly when energy ≥ 150 and the pushed count plus the previous population is below 50; it is `Child` of the parent and comes first, followed by the parent with its energy halved; otherwise only the parent is pushed, and no draw is used |
| Simulation.Reproduce | src/components/PetriDish.tsx:248-255 | the reproduction step and the final push compute `Reproduction` |
| Simulation.TakeTurn | src/components/PetriDish.tsx:128-256 | one bacterium's turn: nothing is pushed exactly when it dies; otherwise the survivor is pushed last, with its energy halved exactly when a child is pushed before it, and that happens exactly under the energy and population conditions; everything pushed lives; at most the item eaten leaves the food list |
| Simulation.TurnStaysHealthy | src/components/PetriDish.tsx:128-256 | from a healthy bacterium, among bacteria with stats in range and fresh food, everything a turn pushes is healthy |
| Simulation.Advance | src/components/PetriDish.tsx:128-256 | the body of the `forEach` finds a nearest item of the previous snapshot's food through the grid and computes `TakeTurn` for it |
| Simulation.NextTurnTotals | src/components/PetriDish.tsx:128-256 | one turn pushes at most two bacteria, two only while the cap leaves room, all alive; the food it leaves is part of the food it found; it never moves the draw index back |
| Simulation.TraceTotals | src/components/PetriDish.tsx:127-256 | over a whole trace of turns, at most `Room` more than one bacterium per turn is pushed and never more than two per turn; all pushed live; the food left is part of the previous food; from a valid snapshot all pushed are healthy |
| Simulation.Spawned | src/components/PetriDish.tsx:258-266 | no draw at 30 items; otherwise one draw decides (below 0.05) whether a fresh item with energy 40, in the dish, is appended, using three more draws; the list never grows past the larger of its length and 30 |
| Simulation.SpawnFood | src/components/PetriDish.tsx:258-266 | the spawning code computes `Spawned` |
| Simulation.AdvanceAll | src/components/PetriDish.tsx:127-256 | the loop over the previous snapshot's bacteria produces a trace of their turns in order: the pushed list is exactly what the turns push (so the parents appear in order, each a survivor), the food is what the last turn left, the draw index never goes back; plus the `TraceTotals` bounds |
| Simulation.Step | src/components/PetriDish.tsx:113-268 | the next bacteria are exactly what the turns of the previous bacteria push, in order; the next food is `Spawned` of what they left; the population is at most `max(previous, 50)`; food is the survivors plus at most one fresh item; a valid snapshot stays valid |
| Simulation.StepTotals | src/components/PetriDish.tsx:113-268 | the bounds of a frame follow from those of the turns and of `Spawned`: population at most `max(previous, 50)`, eaten food accounted for, validity kept |
| Simulation.StepIsStep | src/components/PetriDish.tsx:113-268 | the trace of turns `Step` returns makes its result an `IsStep` of its input |
| Simulation.Run | src/components/PetriDish.tsx:271-272 | the frames form a trace of snapshots in which each is `IsStep` of the one before (the bacteria a trace of turns pushes and the food the spawner leaves after it); a valid snapshot stays valid (at most 50 bacteria and 30 food items, energy ≥ 0 and 0 < health ≤ 100); no draw is read twice |

## Left out

- React plumbing is not modelled: state hooks, `requestAnimationFrame` scheduling and its cancellation. `Run` stands for the repeated frames.
- The frame skipped while `lastTimeRef` is still unset (PetriDish.tsx:112) is not modelled. It leaves the state unchanged.
- Rendering is not modelled: the JSX of PetriDish.tsx and the `Cell` SVG geometry of Cell.tsx.
- `src/App.tsx`, `src/components/Menu.tsx` and `src/components/items.ts` are not part of this model. They hold UI and static data.
- IEEE-754 doubles are replaced by reals. Rounding error, NaN and infinities are not modelled.
- `Math.sqrt` is not needed, because comparisons use squared distances.
- `Math.atan2`, `Math.cos` and `Math.sin` are runtime parameters. The contracts say which vector each direction is taken of: towards the food, along the velocity, away from the attacker. Of the direction itself only its unit length is known, so no property depends on the angle.
- Random ids and number-to-text conversion are runtime parameters. Their text is not modelled.
- Food energy is modelled as exact. Every food item is spawned with energy 40.
- The `key !== 'seed'` test at PetriDish.tsx:78 is always true for the visited keys, so the model has no branch for it.
- The extra `[]` argument passed to `calculateStats` at PetriDish.tsx:51 is not modelled. It has no effect.
- Combat.Fight, Simulation.Lived, Simulation.Survive, Simulation.TakeTurn, Simulation.Advance, Simulation.AdvanceAll and Simulation.Step require a non-zero defense. JavaScript would divide by zero and produce an infinite or NaN health. From a valid snapshot defense is at least 35 (`StatsFrom`), so the requirement always holds there.
- Simulation.Move states the grid search's answer as a nearest item (`IsNearest`). Which of several equally near items the cell-by-cell scan returns is not stated.
- The grid is built once from the previous snapshot's food. A bacterium can therefore steer towards an item that another bacterium already ate in the same frame. This is the source's behaviour and the model keeps it.
- A child is placed up to 10 units from its parent and is not clamped. So `Valid` allows positions up to 10 units outside the dish, and only parents are proved to lie inside it.
