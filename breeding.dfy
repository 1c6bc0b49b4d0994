/** New agents and their inherited traits (PetriDish.tsx:
    `createBacterium` and `mutateDNA`). */
module Breeding {
  import opened CellStats
  import opened DishModel

  /** The keys of `CellDNA` that `mutateDNA` visits; `seed` is not one. */
  datatype Trait = ColorHue | Size | Eccentricity | EyeSize | EyeDistance
                 | MouthCurve | MouthWidth | TailLength | TailWaviness

  /** The `keys` array, in its order. */
  const MutationKeys: seq<Trait> :=
    [ColorHue, Size, Eccentricity, EyeSize, EyeDistance, MouthCurve, MouthWidth, TailLength, TailWaviness]

  /** `dna[key]`. */
  function Get(d: DNA, t: Trait): real {
    match t
    case ColorHue => d.colorHue
    case Size => d.size
    case Eccentricity => d.eccentricity
    case EyeSize => d.eyeSize
    case EyeDistance => d.eyeDistance
    case MouthCurve => d.mouthCurve
    case MouthWidth => d.mouthWidth
    case TailLength => d.tailLength
    case TailWaviness => d.tailWaviness
  }

  /** `dna[key] = v`: only that trait changes. */
  function Set(d: DNA, t: Trait, v: real): (r: DNA)
    ensures Get(r, t) == v
    ensures forall u :: u != t ==> Get(r, u) == Get(d, u)
    ensures r.seed == d.seed
  {
    match t
    case ColorHue => d.(colorHue := v)
    case Size => d.(size := v)
    case Eccentricity => d.(eccentricity := v)
    case EyeSize => d.(eyeSize := v)
    case EyeDistance => d.(eyeDistance := v)
    case MouthCurve => d.(mouthCurve := v)
    case MouthWidth => d.(mouthWidth := v)
    case TailLength => d.(tailLength := v)
    case TailWaviness => d.(tailWaviness := v)
  }

  /** The clamping range `[min, max]` that `mutateDNA` uses for a trait
      other than the hue: [0.5, 2.0] unless overridden. */
  function Bounds(t: Trait): (real, real) {
    if t == TailLength then (0.5, 3.0)
    else if t == TailWaviness then (0.0, 5.0)
    else if t == MouthCurve then (-50.0, 50.0)
    else (0.5, 2.0)
  }

  /** The ranges of `DnaInRange` are the hue circle and the clamping
      ranges of `mutateDNA`. */
  lemma DnaInRangeByTrait(d: DNA)
    ensures DnaInRange(d) <==>
              && 0.0 <= d.colorHue < 360.0
              && forall t :: t != ColorHue ==> Bounds(t).0 <= Get(d, t) <= Bounds(t).1
  {
    if forall t :: t != ColorHue ==> Bounds(t).0 <= Get(d, t) <= Bounds(t).1 {
      assert Bounds(Size).0 <= Get(d, Size) <= Bounds(Size).1;
      assert Bounds(Eccentricity).0 <= Get(d, Eccentricity) <= Bounds(Eccentricity).1;
      assert Bounds(EyeSize).0 <= Get(d, EyeSize) <= Bounds(EyeSize).1;
      assert Bounds(EyeDistance).0 <= Get(d, EyeDistance) <= Bounds(EyeDistance).1;
      assert Bounds(MouthCurve).0 <= Get(d, MouthCurve) <= Bounds(MouthCurve).1;
      assert Bounds(MouthWidth).0 <= Get(d, MouthWidth) <= Bounds(MouthWidth).1;
      assert Bounds(TailLength).0 <= Get(d, TailLength) <= Bounds(TailLength).1;
      assert Bounds(TailWaviness).0 <= Get(d, TailWaviness) <= Bounds(TailWaviness).1;
    }
  }

  /** `Math.trunc`. */
  function Trunc(x: real): int {
    if x >= 0.0 then x.Floor else -((-x).Floor)
  }

  /** JavaScript's `a % 360`, whose result takes the sign of `a`. */
  function Rem360(a: real): (r: real)
    ensures a >= 0.0 ==> 0.0 <= r < 360.0
    ensures a < 0.0 ==> -360.0 < r <= 0.0
    ensures 0.0 <= a < 360.0 ==> r == a
  {
    a - 360.0 * Trunc(a / 360.0) as real
  }

  /** The new hue: `(hue + noise + 360) % 360` with noise
      `(draw - 0.5) * 120` in [-60, 60). */
  function MutatedHue(hue: real, draw: Draw): (r: real)
    ensures 0.0 <= hue <= 360.0 ==> 0.0 <= r < 360.0
  {
    Rem360(hue + (draw - 0.5) * 120.0 + 360.0)
  }

  /** A new non-hue trait: the value plus noise `(draw - 0.5) * 0.5` in
      [-0.25, 0.25), clamped to the trait's range whatever the value was. */
  function MutatedTrait(t: Trait, val: real, draw: Draw): (r: real)
    ensures Bounds(t).0 <= r <= Bounds(t).1
  {
    Clamp(val + (draw - 0.5) * 0.5, Bounds(t).0, Bounds(t).1)
  }

  /** One key of the `keys.forEach`: draw `k` decides whether the key
      mutates (below 0.2); if it does, draw `k + 1` is the noise. A key
      whose draw is at least 0.2 is copied unchanged; otherwise only that
      trait changes. Returns the next unused draw. */
  function MutateKey(d: DNA, t: Trait, rt: Runtime, k: nat): (r: (DNA, nat))
    ensures rt.random(k) >= MutationRate ==> r == (d, k + 1)
    ensures rt.random(k) < MutationRate ==>
              && r.1 == k + 2
              && (forall u :: u != t ==> Get(r.0, u) == Get(d, u))
              && (t == ColorHue ==> Get(r.0, t) == MutatedHue(Get(d, t), rt.random(k + 1)))
              && (t != ColorHue ==> Get(r.0, t) == MutatedTrait(t, Get(d, t), rt.random(k + 1)))
    ensures r.0.seed == d.seed
    ensures DnaInRange(d) ==> DnaInRange(r.0)
  {
    if rt.random(k) < MutationRate then
      var v := if t == ColorHue then MutatedHue(Get(d, t), rt.random(k + 1))
               else MutatedTrait(t, Get(d, t), rt.random(k + 1));
      var d' := Set(d, t, v);
      DnaInRangeByTrait(d);
      DnaInRangeByTrait(d');
      (d', k + 2)
    else (d, k + 1)
  }

  /** The loop over `keys`, key by key from the left. */
  function MutateKeys(d: DNA, keys: seq<Trait>, rt: Runtime, k: nat): (r: (DNA, nat))
    ensures k + |keys| <= r.1 <= k + 2 * |keys|
    ensures r.0.seed == d.seed
    ensures forall t :: t !in keys ==> Get(r.0, t) == Get(d, t)
    ensures DnaInRange(d) ==> DnaInRange(r.0)
  {
    if keys == [] then (d, k)
    else
      var before := MutateKeys(d, keys[..|keys| - 1], rt, k);
      assert forall t :: t !in keys ==> t !in keys[..|keys| - 1];
      MutateKey(before.0, keys[|keys| - 1], rt, before.1)
  }

  /** When every draw the keys could use is at least 0.2, nothing mutates:
      the traits are copied and one draw per key is used. */
  lemma {:induction false} NoLowDrawNoMutation(d: DNA, keys: seq<Trait>, rt: Runtime, k: nat)
    requires forall j :: k <= j < k + |keys| ==> rt.random(j) >= MutationRate
    ensures MutateKeys(d, keys, rt, k) == (d, k + |keys|)
  {
    if keys != [] {
      NoLowDrawNoMutation(d, keys[..|keys| - 1], rt, k);
    }
  }

  /** The `keys.forEach` callback for one key, reading draws from `k`. */
  method MutateTrait(d: DNA, key: Trait, rt: Runtime, k: nat) returns (d': DNA, k': nat)
    ensures (d', k') == MutateKey(d, key, rt, k)
  {
    d', k' := d, k + 1;
    if rt.random(k) < MutationRate {
      if key == ColorHue {
        d' := Set(d, key, Rem360(Get(d, key) + (rt.random(k + 1) - 0.5) * 120.0 + 360.0));
      } else {
        var val := Get(d, key);
        var min, max := 0.5, 2.0;
        if key == TailLength { max := 3.0; }
        if key == TailWaviness { min, max := 0.0, 5.0; }
        if key == MouthCurve { min, max := -50.0, 50.0; }
        assert (min, max) == Bounds(key);
        d' := Set(d, key, Max(min, Min(max, val + (rt.random(k + 1) - 0.5) * 0.5)));
      }
      k' := k + 2;
    }
  }

  /** The genome `mutateDNA` makes and the next unused draw: draw `k`
      makes the new seed, then each key in turn. The child always has the
      new seed, keeps every trait in range when the parent's are, and uses
      between 10 and 19 draws. */
  function MutatedDna(dna: DNA, rt: Runtime, k: nat): (r: (DNA, nat))
    ensures r.0.seed == rt.idOf(rt.random(k))
    ensures DnaInRange(dna) ==> DnaInRange(r.0)
    ensures k + 10 <= r.1 <= k + 19
  {
    var start := dna.(seed := rt.idOf(rt.random(k)));
    assert DnaInRange(dna) ==> DnaInRange(start);
    MutateKeys(start, MutationKeys, rt, k + 1)
  }

  /** `mutateDNA`, computing `MutatedDna`. */
  method MutateDNA(dna: DNA, rt: Runtime, k: nat) returns (child: DNA, k': nat)
    ensures (child, k') == MutatedDna(dna, rt, k)
  {
    var newDna := dna.(seed := rt.idOf(rt.random(k)));
    ghost var start := newDna;
    k' := k + 1;
    for i := 0 to |MutationKeys|
      invariant (newDna, k') == MutateKeys(start, MutationKeys[..i], rt, k + 1)
    {
      assert MutationKeys[..i + 1][..i] == MutationKeys[..i];
      newDna, k' := MutateTrait(newDna, MutationKeys[i], rt, k');
    }
    assert MutationKeys[..|MutationKeys|] == MutationKeys;
    child := newDna;
  }

  /** The bacterium `createBacterium` makes from draws `k` to `k + 2`: the
      id from the first, the initial velocity components in [-1, 1) from
      the other two, no acceleration, energy 100, health 100, and the
      stats derived from the genome, which are in range when the genome
      is. */
  function NewBacterium(dna: DNA, x: real, y: real, rt: Runtime, k: nat): (b: Bacterium)
    ensures b.dna == dna && b.x == x && b.y == y
    ensures b.energy == 100.0 && b.health == 100.0 && b.ax == 0.0 && b.ay == 0.0
    ensures -1.0 <= b.vx < 1.0 && -1.0 <= b.vy < 1.0
    ensures b.stats == StatsFrom(dna, SeededRandoms(CompositeSeed(dna, rt.show), 4, rt.sin))
    ensures DnaInRange(dna) ==> StatsInRange(b.stats)
  {
    Bacterium(
      id := rt.idOf(rt.random(k)),
      dna := dna,
      x := x,
      y := y,
      vx := (rt.random(k + 1) - 0.5) * 2.0,
      vy := (rt.random(k + 2) - 0.5) * 2.0,
      ax := 0.0,
      ay := 0.0,
      energy := 100.0,
      health := 100.0,
      stats := StatsFrom(dna, SeededRandoms(CompositeSeed(dna, rt.show), 4, rt.sin)))
  }

  /** `createBacterium`: derive the stats, then draw the id and the initial
      velocity; uses three draws. */
  method CreateBacterium(dna: DNA, x: real, y: real, rt: Runtime, k: nat) returns (b: Bacterium, k': nat)
    ensures b == NewBacterium(dna, x, y, rt, k)
    ensures k' == k + 3
  {
    var stats := CalculateStats(dna, rt.show, rt.sin);
    b := Bacterium(
      id := rt.idOf(rt.random(k)),
      dna := dna,
      x := x,
      y := y,
      vx := (rt.random(k + 1) - 0.5) * 2.0,
      vy := (rt.random(k + 2) - 0.5) * 2.0,
      ax := 0.0,
      ay := 0.0,
      energy := 100.0,
      health := 100.0,
      stats := stats);
    k' := k + 3;
  }
}
