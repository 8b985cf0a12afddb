/** The Warrior class: its identity and its integer stat formulas. */
module WarriorClass {
  import opened Common

  /** The class this definition describes. */
  function Id(): (c: nat)
  {
    ClassWarrior
  }

  /** The power resource Warriors use. */
  function PowerType(): (p: nat)
  {
    PowerRage
  }

  lemma WarriorIsWarriorWithRage()
    ensures Id() == ClassWarrior && PowerType() == PowerRage
    ensures PowerType() < PowerTypeCount
  {
  }

  /** Melee attack power for a level, Strength and Agility. */
  function CalculateMeleeAP(level: int, strength: int, agility: int): (ap: int)
  {
    level * 3 + strength * 2 - 20
  }

  /** Ranged attack power for a level, Strength and Agility. */
  function CalculateRangedAP(level: int, strength: int, agility: int): (ap: int)
  {
    level + agility - 10
  }

  /** Melee attack power: 3 per level and 2 per Strength point, offset by -20, whatever the Agility. */
  lemma MeleeAPShape(level: int, strength: int, agility: int, agility': int)
    ensures CalculateMeleeAP(level, strength, agility) == CalculateMeleeAP(level, strength, agility')
    ensures CalculateMeleeAP(level + 1, strength, agility) == CalculateMeleeAP(level, strength, agility) + 3
    ensures CalculateMeleeAP(level, strength + 1, agility) == CalculateMeleeAP(level, strength, agility) + 2
    ensures CalculateMeleeAP(0, 0, agility) == -20
  {
  }

  /** Ranged attack power: 1 per level and 1 per Agility point, offset by -10, whatever the Strength. */
  lemma RangedAPShape(level: int, strength: int, strength': int, agility: int)
    ensures CalculateRangedAP(level, strength, agility) == CalculateRangedAP(level, strength', agility)
    ensures CalculateRangedAP(level + 1, strength, agility) == CalculateRangedAP(level, strength, agility) + 1
    ensures CalculateRangedAP(level, strength, agility + 1) == CalculateRangedAP(level, strength, agility) + 1
    ensures CalculateRangedAP(0, strength, 0) == -10
  {
  }

  /** Rage regeneration per tick: none in combat, decay of 50 (5 rage) out of combat. */
  function CalculatePowerRegen(isInCombat: bool): (regen: int)
    ensures isInCombat <==> regen == 0
    ensures !isInCombat ==> regen == -50
  {
    if isInCombat then 0 else -50
  }

  /** Maximum power at a level: Warriors have a fixed 1000 (100 rage) at every level. */
  function GetPowerForLevel(level: int): (power: int)
  {
    1000
  }

  lemma PowerForLevelIsConstant(level: int, level': int)
    ensures GetPowerForLevel(level) == GetPowerForLevel(level') == 1000
  {
  }
}
