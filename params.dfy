/** Tunable constants of the battle and the three morale modifier formulas
    (the module of simulation parameters). */
module Params {

  const RedMovementSpeed: real := 0.8
  const BlueMovementSpeed: real := 0.8

  // Steering weights.
  const CoherenceFactor: real := 0.025
  const SeparationFactor: real := 0.2
  const MatchFactor: real := 0.05
  const EnemyPositionFactor: real := 0.03
  const WantHealing: real := 1.0

  const BasicMorale: real := 8.0
  const BasicDamage: real := 3.0
  const BasicHp: real := 100.0
  const BasicAttackRange: real := 2.0
  const HealingRange: real := 3.0
  const GuardingRange: real := 4.0
  const VisionRange: real := 50.0
  /** A precise shot hits when a draw from 0..9 is below this. */
  const SuccessChance: int := 6
  const FlockingRadius: real := 5.0
  const SeparationDistance: real := 1.5

  /** Weight of the allies' average morale in a unit's new morale. */
  const AlliesMoraleWeight: real := 0.2

  /** Morale at or under which a unit flees the battlefield. */
  const ToFleeThreshold: real := 2.0

  function Max(a: real, b: real): (r: real)
    ensures r >= a && r >= b && (r == a || r == b)
  {
    if a >= b then a else b
  }

  /** Morale bonus for having killed an enemy this turn. */
  function KillMoraleModifier(hasKilled: bool): (r: real)
    ensures r >= 0.0
    ensures r > 0.0 <==> hasKilled
    ensures hasKilled ==> r == 1.5
  {
    if hasKilled then 1.5 else 0.0
  }

  /** Morale bonus for the damage dealt this turn: the damage itself. */
  function DamageInflictedMoraleModifier(damageInflicted: real): (r: real)
    ensures r == damageInflicted
  {
    damageInflicted
  }

  /** Morale term for the damage received this turn: the larger of the
      squared damage over the initial hp and the damage itself. */
  function DamageReceivedMoraleModifier(damageReceived: real, initialHp: real): (r: real)
    requires initialHp != 0.0
    ensures r >= damageReceived
    ensures r >= damageReceived * damageReceived / initialHp
    ensures r == damageReceived || r == damageReceived * damageReceived / initialHp
  {
    Max(damageReceived * damageReceived / initialHp, damageReceived)
  }

  /** Up to the initial hp the received-damage term is linear. */
  lemma ReceivedModifierLinear(x: real, hp: real)
    requires hp > 0.0 && 0.0 <= x <= hp
    ensures DamageReceivedMoraleModifier(x, hp) == x
  {
    assert x * x <= x * hp;
    assert x * x / hp <= x * hp / hp;
  }

  /** From the initial hp on the received-damage term is quadratic. */
  lemma ReceivedModifierQuadratic(x: real, hp: real)
    requires hp > 0.0 && x >= hp
    ensures DamageReceivedMoraleModifier(x, hp) == x * x / hp
  {
    assert x * x >= x * hp;
    assert x * x / hp >= x * hp / hp;
  }

  /** With nothing negative going in, none of the three modifiers is negative. */
  lemma ModifiersNonNegative(hasKilled: bool, inflicted: real, received: real, initialHp: real)
    requires inflicted >= 0.0 && received >= 0.0 && initialHp > 0.0
    ensures KillMoraleModifier(hasKilled) >= 0.0
    ensures DamageInflictedMoraleModifier(inflicted) >= 0.0
    ensures DamageReceivedMoraleModifier(received, initialHp) >= 0.0
  {
  }
}
