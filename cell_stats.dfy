/** The genetic descriptor of a cell and the derivation of its combat
    stats (src/components/Cell.tsx): a 32-bit string hash, a seeded
    pseudo-random generator built on `Math.sin`, and four linear formulas
    rounded with `Math.round`. */
module CellStats {

  /** The trait record `CellDNA`. The documented ranges are not enforced
      by the record itself; `DnaInRange` states them. */
  datatype DNA = DNA(
    colorHue: real,
    size: real,
    eccentricity: real,
    eyeSize: real,
    eyeDistance: real,
    mouthCurve: real,
    mouthWidth: real,
    tailLength: real,
    tailWaviness: real,
    seed: string)

  /** The record returned by `calculateStats`. */
  datatype Stats = Stats(speed: int, defense: int, attack: int, reaction: int)

  predicate InRange(v: real, lo: real, hi: real) {
    lo <= v <= hi
  }

  /** The ranges documented next to each field of `CellDNA`. The hue is
      kept in [0, 360), the interval that mutation produces. */
  predicate DnaInRange(d: DNA) {
    && 0.0 <= d.colorHue < 360.0
    && InRange(d.size, 0.5, 2.0)
    && InRange(d.eccentricity, 0.5, 2.0)
    && InRange(d.eyeSize, 0.5, 2.0)
    && InRange(d.eyeDistance, 0.5, 2.0)
    && InRange(d.mouthCurve, -50.0, 50.0)
    && InRange(d.mouthWidth, 0.5, 2.0)
    && InRange(d.tailLength, 0.5, 3.0)
    && InRange(d.tailWaviness, 0.0, 5.0)
  }

  /** The ranges the four stats fall in whenever the traits are in range. */
  predicate StatsInRange(s: Stats) {
    && 53 <= s.speed <= 140
    && 35 <= s.defense <= 95
    && 30 <= s.attack <= 95
    && 20 <= s.reaction <= 65
  }

  // ---------------------------------------------------------------------
  // 32-bit string hash

  const TwoTo31: int := 0x8000_0000
  const TwoTo32: int := 0x1_0000_0000

  predicate IsInt32(x: int) {
    -TwoTo31 <= x < TwoTo32 - TwoTo31
  }

  /** ECMAScript ToInt32 on an integral number: the signed 32-bit value
      congruent to `x` modulo 2^32. */
  function ToInt32(x: int): (r: int)
    ensures IsInt32(r)
    ensures x - r == TwoTo32 * ((x + TwoTo31) / TwoTo32)
    ensures IsInt32(x) ==> r == x
  {
    (x + TwoTo31) % TwoTo32 - TwoTo31
  }

  /** The UTF-16 code units that `charCodeAt` visits, in order. */
  function Utf16(s: string): (units: seq<int>)
    ensures |s| <= |units| <= 2 * |s|
    ensures forall i :: 0 <= i < |units| ==> 0 <= units[i] < 0x1_0000
  {
    if s == [] then []
    else
      var c := s[0] as int;
      var head := if c < 0x1_0000 then [c]
                  else [0xD800 + (c - 0x1_0000) / 0x400, 0xDC00 + (c - 0x1_0000) % 0x400];
      head + Utf16(s[1..])
  }

  /** One pass of the hash loop: `hash = ((hash << 5) - hash) + char`
      followed by `hash = hash & hash`. The shift wraps `32 * hash` to 32
      bits; the subtraction and addition are exact in a double (their
      magnitude stays below 2^34); the `&` wraps the sum to 32 bits. */
  function HashStep(hash: int, unit: int): (r: int)
    ensures IsInt32(r)
  {
    ToInt32(ToInt32(hash * 32) - hash + unit)
  }

  /** The hash of a sequence of code units, unit by unit from the left. */
  function StringHash(units: seq<int>): (h: int)
    ensures IsInt32(h)
  {
    if units == [] then 0
    else HashStep(StringHash(units[..|units| - 1]), units[|units| - 1])
  }

  /** The textbook polynomial hash `sum units[i] * 31^(n-1-i)`, over
      unbounded integers. */
  function PolynomialHash(units: seq<int>): int {
    if units == [] then 0
    else 31 * PolynomialHash(units[..|units| - 1]) + units[|units| - 1]
  }

  /** The arithmetic of one hash step: if `h` and `p` agree modulo 2^32,
      so do the wrapped step from `h` and the exact step `31 * p + c`. */
  lemma StepPreservesCongruence(h: int, p: int, shifted: int, r: int, c: int, q1: int, q2: int, q3: int)
    requires h - p == TwoTo32 * q1
    requires h * 32 - shifted == TwoTo32 * q2
    requires shifted - h + c - r == TwoTo32 * q3
    ensures r - (31 * p + c) == TwoTo32 * (31 * q1 - q2 - q3)
  {
  }

  /** The 32-bit hash is the polynomial hash with base 31 reduced modulo
      2^32: the wrapping at each step loses nothing but the high bits
      (`q` is the multiple of 2^32 they differ by). */
  lemma {:induction false} StringHashIsPolynomial(units: seq<int>) returns (q: int)
    ensures StringHash(units) - PolynomialHash(units) == TwoTo32 * q
  {
    if units == [] {
      q := 0;
    } else {
      var init := units[..|units| - 1];
      var c := units[|units| - 1];
      var q1 := StringHashIsPolynomial(init);
      var h := StringHash(init);
      var shifted := ToInt32(h * 32);
      var sum := shifted - h + c;
      var q2 := (h * 32 + TwoTo31) / TwoTo32;
      var q3 := (sum + TwoTo31) / TwoTo32;
      StepPreservesCongruence(h, PolynomialHash(init), shifted, ToInt32(sum), c, q1, q2, q3);
      q := 31 * q1 - q2 - q3;
    }
  }

  /** The first loop of `getSeededRandoms`. */
  method HashString(seedStr: string) returns (hash: int)
    ensures hash == StringHash(Utf16(seedStr))
    ensures IsInt32(hash)
  {
    var units := Utf16(seedStr);
    hash := 0;
    for i := 0 to |units|
      invariant hash == StringHash(units[..i])
    {
      var code := units[i];
      assert units[..i + 1][..i] == units[..i];
      ghost var before := hash;
      hash := ToInt32(hash * 32) - hash + code;
      hash := ToInt32(hash);
      assert hash == HashStep(before, code);
    }
    assert units[..|units|] == units;
  }

  // ---------------------------------------------------------------------
  // Seeded random numbers

  /** `x - Math.floor(x)`: the fractional part. */
  function Frac(x: real): (r: real)
    ensures 0.0 <= r < 1.0
    ensures x - r == (x - r).Floor as real
  {
    x - x.Floor as real
  }

  /** What `getSeededRandoms(seedStr, count)` returns: the fractional
      parts of `sin(hash + i) * 10000`. The sine is supplied by the caller. */
  function SeededRandoms(seedStr: string, count: nat, sin: real -> real): (r: seq<real>)
    ensures |r| == count
    ensures forall i :: 0 <= i < count ==> 0.0 <= r[i] < 1.0
  {
    if count == 0 then []
    else
      SeededRandoms(seedStr, count - 1, sin)
        + [Frac(sin((StringHash(Utf16(seedStr)) + count - 1) as real) * 10000.0)]
  }

  /** One more value extends the sequence by `sin(hash + count)`. */
  lemma SeededRandomsNext(seedStr: string, hash: int, count: nat, sin: real -> real)
    requires hash == StringHash(Utf16(seedStr))
    ensures SeededRandoms(seedStr, count + 1, sin)
            == SeededRandoms(seedStr, count, sin) + [Frac(sin((hash + count) as real) * 10000.0)]
  {
  }

  /** `getSeededRandoms`: hash the seed string, then push `count`
      fractional parts while incrementing `currentSeed`. */
  method GetSeededRandoms(seedStr: string, count: nat, sin: real -> real) returns (randoms: seq<real>)
    ensures randoms == SeededRandoms(seedStr, count, sin)
  {
    var hash := HashString(seedStr);
    randoms := [];
    var currentSeed := hash;
    for i := 0 to count
      invariant currentSeed == hash + i
      invariant randoms == SeededRandoms(seedStr, i, sin)
    {
      SeededRandomsNext(seedStr, hash, i, sin);
      var x := sin(currentSeed as real) * 10000.0;
      currentSeed := currentSeed + 1;
      randoms := randoms + [Frac(x)];
    }
  }

  // ---------------------------------------------------------------------
  // Stat formulas

  /** `Math.round`: the nearest integer, halves rounded up. */
  function Round(x: real): (n: int)
    ensures x - 0.5 < n as real <= x + 0.5
  {
    (x + 0.5).Floor
  }

  function RawSpeed(d: DNA, r: real): real {
    50.0 + (2.0 - d.size) * 20.0 + (d.eccentricity - 0.5) * 10.0
      + d.tailLength * 5.0 + d.tailWaviness * 2.0 + r * 20.0
  }

  function RawDefense(d: DNA, r: real): real {
    20.0 + d.size * 20.0 + d.eccentricity * 10.0 + r * 15.0
  }

  function RawAttack(d: DNA, r: real): real {
    30.0 + (50.0 - d.mouthCurve) * 0.4 + r * 25.0
  }

  function RawReaction(d: DNA, r: real): real {
    50.0 - (50.0 - d.mouthCurve) * 0.3 + r * 15.0
  }

  /** The stats of `d` given the four seeded random numbers. */
  function StatsFrom(d: DNA, randoms: seq<real>): (s: Stats)
    requires |randoms| == 4
    ensures DnaInRange(d) && (forall i :: 0 <= i < 4 ==> 0.0 <= randoms[i] < 1.0)
            ==> StatsInRange(s)
  {
    Stats(Round(RawSpeed(d, randoms[0])), Round(RawDefense(d, randoms[1])),
          Round(RawAttack(d, randoms[2])), Round(RawReaction(d, randoms[3])))
  }

  /** The seed string `${seed}-${colorHue}-...-${tailWaviness}`; the
      number-to-text conversion is supplied by the caller. */
  function CompositeSeed(d: DNA, show: real -> string): (s: string)
    ensures |s| >= |d.seed| + 9 && s[..|d.seed|] == d.seed
  {
    d.seed + "-" + show(d.colorHue) + "-" + show(d.size) + "-" + show(d.eccentricity)
      + "-" + show(d.eyeSize) + "-" + show(d.eyeDistance) + "-" + show(d.mouthCurve)
      + "-" + show(d.mouthWidth) + "-" + show(d.tailLength) + "-" + show(d.tailWaviness)
  }

  /** `calculateStats`. */
  method CalculateStats(d: DNA, show: real -> string, sin: real -> real) returns (s: Stats)
    ensures s == StatsFrom(d, SeededRandoms(CompositeSeed(d, show), 4, sin))
    ensures DnaInRange(d) ==> StatsInRange(s)
  {
    var randoms := GetSeededRandoms(CompositeSeed(d, show), 4, sin);
    s := StatsFrom(d, randoms);
  }

  // ---------------------------------------------------------------------
  // How the stats respond to the traits, the random numbers held fixed

  /** A larger cell is strictly slower and strictly tougher before
      rounding, and no faster and no weaker after it. */
  lemma SizeTradesSpeedForDefense(d: DNA, bigger: real, r0: real, r1: real)
    requires d.size < bigger
    ensures RawSpeed(d.(size := bigger), r0) < RawSpeed(d, r0)
    ensures RawDefense(d, r1) < RawDefense(d.(size := bigger), r1)
    ensures Round(RawSpeed(d.(size := bigger), r0)) <= Round(RawSpeed(d, r0))
    ensures Round(RawDefense(d, r1)) <= Round(RawDefense(d.(size := bigger), r1))
  {
  }

  /** A happier mouth (larger `mouthCurve`) never raises attack and never
      lowers reaction. */
  lemma MouthTradesAttackForReaction(d: DNA, happier: real, r2: real, r3: real)
    requires d.mouthCurve <= happier
    ensures Round(RawAttack(d.(mouthCurve := happier), r2)) <= Round(RawAttack(d, r2))
    ensures Round(RawReaction(d, r3)) <= Round(RawReaction(d.(mouthCurve := happier), r3))
  {
  }

  /** With traits in range the speed stat is at least 52.5 before
      rounding, so the speed cap `speed / 30` is positive; defense is at
      least 35, so the combat division never divides by zero. */
  lemma RawStatFloors(d: DNA, r0: real, r1: real)
    requires DnaInRange(d) && 0.0 <= r0 < 1.0 && 0.0 <= r1 < 1.0
    ensures RawSpeed(d, r0) >= 52.5
    ensures RawDefense(d, r1) >= 35.0
  {
  }
}
