/** Fights between hue-enemies (PetriDish.tsx, "Interaction with other
    bacteria"): a bacterium at its new position takes chip damage and a
    knockback from every enemy of the previous snapshot that touches it. */
module Combat {
  import opened CellStats
  import opened DishModel

  /** Circular distance between two hues: `min(d, 360 - d)` with
      `d = |h1 - h2|`. */
  function HueDistance(h1: real, h2: real): (r: real)
    ensures r <= 180.0
    ensures Abs(h1 - h2) <= 360.0 ==> r >= 0.0
  {
    var diff := Abs(h1 - h2);
    Min(diff, 360.0 - diff)
  }

  /** Hue distance is symmetric, and for hues on the circle it is
      between 0 and 180. */
  lemma HueDistanceIsSymmetric(h1: real, h2: real)
    ensures HueDistance(h1, h2) == HueDistance(h2, h1)
    ensures 0.0 <= h1 < 360.0 && 0.0 <= h2 < 360.0 ==> 0.0 <= HueDistance(h1, h2) <= 180.0
  {
  }

  predicate IsEnemy(h1: real, h2: real) {
    HueDistance(h1, h2) > 45.0
  }

  /** `other` attacks `b`, which has just moved to `(nx, ny)`: a different
      id, an enemy hue, and closer than `40 * b.dna.size`. */
  predicate Attacks(other: Bacterium, b: Bacterium, nx: real, ny: real) {
    && b.id != other.id
    && Within(other.x - nx, other.y - ny, 40.0 * b.dna.size)
    && IsEnemy(b.dna.colorHue, other.dna.colorHue)
  }

  /** `(other.stats.attack / b.stats.defense) * 0.1`. */
  function HitDamage(other: Bacterium, b: Bacterium): real
    requires b.stats.defense != 0
  {
    (other.stats.attack as real / b.stats.defense as real) * 0.1
  }

  /** Total damage `b` takes from the bacteria of `others`. */
  function TotalDamage(b: Bacterium, nx: real, ny: real, others: seq<Bacterium>): real
    requires b.stats.defense != 0
  {
    if others == [] then 0.0
    else
      var other := others[|others| - 1];
      TotalDamage(b, nx, ny, others[..|others| - 1])
        + (if Attacks(other, b, nx, ny) then HitDamage(other, b) else 0.0)
  }

  /** The knockback of one hit: length 0.2, along
      `atan2(ny - other.y, nx - other.x)`, away from the attacker. */
  function Push(other: Bacterium, nx: real, ny: real, direction: Direction): (real, real) {
    var u := direction(nx - other.x, ny - other.y);
    (u.0 * 0.2, u.1 * 0.2)
  }

  /** Total knockback `b` receives from the bacteria of `others`. */
  function Knockback(b: Bacterium, nx: real, ny: real, others: seq<Bacterium>, direction: Direction): (real, real) {
    if others == [] then (0.0, 0.0)
    else
      var other := others[|others| - 1];
      var before := Knockback(b, nx, ny, others[..|others| - 1], direction);
      if Attacks(other, b, nx, ny) then
        var p := Push(other, nx, ny, direction);
        (before.0 + p.0, before.1 + p.1)
      else before
  }

  /** The inner `prev.bacteria.forEach`: walk the previous snapshot,
      skipping `b`'s own id, and for each attacker subtract its damage
      from health and add its knockback to the velocity. */
  method Fight(b: Bacterium, nx: real, ny: real, health: real, vx: real, vy: real,
               others: seq<Bacterium>, direction: Direction)
    returns (health': real, vx': real, vy': real)
    requires b.stats.defense != 0
    ensures health' == health - TotalDamage(b, nx, ny, others)
    ensures vx' == vx + Knockback(b, nx, ny, others, direction).0
    ensures vy' == vy + Knockback(b, nx, ny, others, direction).1
  {
    health', vx', vy' := health, vx, vy;
    for i := 0 to |others|
      invariant health' == health - TotalDamage(b, nx, ny, others[..i])
      invariant vx' == vx + Knockback(b, nx, ny, others[..i], direction).0
      invariant vy' == vy + Knockback(b, nx, ny, others[..i], direction).1
    {
      var other := others[i];
      assert others[..i + 1][..i] == others[..i];
      if b.id == other.id {
        continue;
      }
      var dx, dy := other.x - nx, other.y - ny;
      var colorDiff := Abs(b.dna.colorHue - other.dna.colorHue);
      var isEnemy := Min(colorDiff, 360.0 - colorDiff) > 45.0;
      if Within(dx, dy, 40.0 * b.dna.size) && isEnemy {
        var damage := (other.stats.attack as real / b.stats.defense as real) * 0.1;
        health' := health' - damage;
        var u := direction(nx - other.x, ny - other.y);
        vx' := vx' + u.0 * 0.2;
        vy' := vy' + u.1 * 0.2;
      }
    }
    assert others[..|others|] == others;
  }

  /** Damage and knockback add up over a split of the snapshot. */
  lemma {:induction false} CombatIsAdditive(b: Bacterium, nx: real, ny: real,
                                            s: seq<Bacterium>, t: seq<Bacterium>, direction: Direction)
    requires b.stats.defense != 0
    ensures TotalDamage(b, nx, ny, s + t) == TotalDamage(b, nx, ny, s) + TotalDamage(b, nx, ny, t)
    ensures Knockback(b, nx, ny, s + t, direction).0
            == Knockback(b, nx, ny, s, direction).0 + Knockback(b, nx, ny, t, direction).0
    ensures Knockback(b, nx, ny, s + t, direction).1
            == Knockback(b, nx, ny, s, direction).1 + Knockback(b, nx, ny, t, direction).1
  {
    if t != [] {
      assert (s + t)[..|s + t| - 1] == s + t[..|t| - 1];
      assert (s + t)[|s + t| - 1] == t[|t| - 1];
      CombatIsAdditive(b, nx, ny, s, t[..|t| - 1], direction);
    } else {
      assert s + t == s;
    }
  }

  /** A bacterium never damages or pushes itself: an entry with its own
      id can be dropped from the snapshot without changing anything. */
  lemma OwnIdIsSkipped(b: Bacterium, nx: real, ny: real, s: seq<Bacterium>, me: Bacterium,
                       t: seq<Bacterium>, direction: Direction)
    requires b.stats.defense != 0 && me.id == b.id
    ensures TotalDamage(b, nx, ny, s + [me] + t) == TotalDamage(b, nx, ny, s + t)
    ensures Knockback(b, nx, ny, s + [me] + t, direction) == Knockback(b, nx, ny, s + t, direction)
  {
    CombatIsAdditive(b, nx, ny, s + [me], t, direction);
    CombatIsAdditive(b, nx, ny, s, [me], direction);
    CombatIsAdditive(b, nx, ny, s, t, direction);
    assert [me][..0] == [];
  }

  /** Friends are harmless: when every bacterium of the snapshot is within
      45 degrees of `b`'s hue, `b` takes no damage and no knockback,
      whatever the distances. */
  lemma {:induction false} FriendsAreHarmless(b: Bacterium, nx: real, ny: real,
                                              others: seq<Bacterium>, direction: Direction)
    requires b.stats.defense != 0
    requires forall o :: o in others ==> HueDistance(b.dna.colorHue, o.dna.colorHue) <= 45.0
    ensures TotalDamage(b, nx, ny, others) == 0.0
    ensures Knockback(b, nx, ny, others, direction) == (0.0, 0.0)
  {
    if others != [] {
      var init := others[..|others| - 1];
      assert forall o :: o in init ==> o in others;
      FriendsAreHarmless(b, nx, ny, init, direction);
    }
  }

  /** With a positive defense and non-negative attacks, damage is never
      negative: combat can only lower health. */
  lemma {:induction false} DamageIsNonNegative(b: Bacterium, nx: real, ny: real, others: seq<Bacterium>)
    requires b.stats.defense > 0
    requires forall o :: o in others ==> o.stats.attack >= 0
    ensures TotalDamage(b, nx, ny, others) >= 0.0
  {
    if others != [] {
      var init := others[..|others| - 1];
      var other := others[|others| - 1];
      assert forall o :: o in init ==> o in others;
      DamageIsNonNegative(b, nx, ny, init);
      assert other.stats.attack as real / b.stats.defense as real >= 0.0;
    }
  }

  /** An enemy in contact with a positive attack does damage: total damage
      is then strictly positive. */
  lemma {:induction false} EnemyContactHurts(b: Bacterium, nx: real, ny: real, others: seq<Bacterium>, i: nat)
    requires b.stats.defense > 0
    requires forall o :: o in others ==> o.stats.attack >= 0
    requires i < |others| && Attacks(others[i], b, nx, ny) && others[i].stats.attack > 0
    ensures TotalDamage(b, nx, ny, others) > 0.0
  {
    var init := others[..|others| - 1];
    var other := others[|others| - 1];
    assert forall o :: o in init ==> o in others;
    if i == |others| - 1 {
      DamageIsNonNegative(b, nx, ny, init);
      assert other.stats.attack as real / b.stats.defense as real > 0.0;
    } else {
      assert init[i] == others[i];
      EnemyContactHurts(b, nx, ny, init, i);
      assert other.stats.attack as real / b.stats.defense as real >= 0.0;
    }
  }
}
