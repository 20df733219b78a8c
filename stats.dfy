/**
  The player's four survival stats and the clamped updates `PlayerStatus` applies to them:
  damage, the cost of an attack and the recovery from a potion or food. Every stat is
  meant to stay within [0, maxValue].
 */
module Stats {
  import opened Wrappers
  import opened Items

  /** The inspector-tunable numbers of `PlayerStatus` that the modelled methods read. */
  datatype Config = Config(
    maxValue: real,
    defaultPotionHealthRecovery: real,
    defaultPotionThirstRecovery: real,
    defaultFoodHungerRecovery: real,
    fatigueCostPerAttack: real,
    hungerCostPerAttack: real,
    thirstCostPerAttack: real)

  /** The values the component ships with. */
  const DefaultConfig: Config := Config(100.0, 30.0, 20.0, 25.0, 5.0, 2.0, 2.0)

  /** A cap that is not negative, and recoveries and costs that are not negative. */
  predicate ConfigOk(c: Config) {
    c.maxValue >= 0.0
    && c.defaultPotionHealthRecovery >= 0.0 && c.defaultPotionThirstRecovery >= 0.0
    && c.defaultFoodHungerRecovery >= 0.0
    && c.fatigueCostPerAttack >= 0.0 && c.hungerCostPerAttack >= 0.0 && c.thirstCostPerAttack >= 0.0
  }

  lemma DefaultConfigOk()
    ensures ConfigOk(DefaultConfig)
  {
  }

  datatype Vitals = Vitals(health: real, fatigue: real, hunger: real, thirst: real)

  /** Every stat at the cap: what `Start` and the respawn reset write. */
  function Full(maxValue: real): (v: Vitals)
    ensures maxValue >= 0.0 ==> InRange(v, maxValue)
  {
    Vitals(maxValue, maxValue, maxValue, maxValue)
  }

  predicate InRange(v: Vitals, maxValue: real) {
    0.0 <= v.health <= maxValue && 0.0 <= v.fatigue <= maxValue
    && 0.0 <= v.hunger <= maxValue && 0.0 <= v.thirst <= maxValue
  }

  /** The death test of `CheckStatus`: health, hunger or thirst at 0 or below (fatigue only warns). */
  predicate Lethal(v: Vitals) {
    v.health <= 0.0 || v.hunger <= 0.0 || v.thirst <= 0.0
  }

  /** `TakeDamage`'s update: health drops by `damage`, floored at 0. */
  function AfterDamage(v: Vitals, damage: real): Vitals {
    v.(health := MaxR(0.0, v.health - damage))
  }

  /** `ConsumeStatsOnAttack`: fatigue, hunger and thirst each drop by their cost, floored at 0. */
  function AfterAttack(v: Vitals, c: Config): Vitals {
    v.(fatigue := MaxR(0.0, v.fatigue - c.fatigueCostPerAttack),
       hunger := MaxR(0.0, v.hunger - c.hungerCostPerAttack),
       thirst := MaxR(0.0, v.thirst - c.thirstCostPerAttack))
  }

  /**
    The stat part of `UseItem`: a potion restores health and thirst, food restores hunger,
    each capped at `maxValue`; an item's own recovery is used when positive, the configured
    default otherwise. Other item types leave the stats alone.
   */
  function AfterUse(v: Vitals, c: Config, it: Item): Vitals {
    var healthToAdd := if it.GetHealthRecovery() > 0.0 then it.GetHealthRecovery() else c.defaultPotionHealthRecovery;
    var hungerToAdd := if it.GetHungerRecovery() > 0.0 then it.GetHungerRecovery() else c.defaultFoodHungerRecovery;
    var thirstToAdd := if it.GetThirstRecovery() > 0.0 then it.GetThirstRecovery() else c.defaultPotionThirstRecovery;
    match it.itemType
    case Potion =>
      v.(health := MinR(c.maxValue, v.health + healthToAdd), thirst := MinR(c.maxValue, v.thirst + thirstToAdd))
    case Food => v.(hunger := MinR(c.maxValue, v.hunger + hungerToAdd))
    case _ => v
  }

  /** Damage never raises health, never takes it below 0, and touches nothing else. */
  lemma AfterDamageClamps(v: Vitals, damage: real, maxValue: real)
    requires InRange(v, maxValue) && damage >= 0.0
    ensures var r := AfterDamage(v, damage);
      && InRange(r, maxValue)
      && r.health <= v.health
      && (r.health == 0.0 || r.health == v.health - damage)
      && r.fatigue == v.fatigue && r.hunger == v.hunger && r.thirst == v.thirst
  {
  }

  /** Damage of at least the current health is lethal. */
  lemma EnoughDamageIsLethal(v: Vitals, damage: real)
    requires damage >= v.health
    ensures Lethal(AfterDamage(v, damage))
  {
  }

  lemma AfterAttackClamps(v: Vitals, c: Config)
    requires ConfigOk(c) && InRange(v, c.maxValue)
    ensures var r := AfterAttack(v, c);
      && InRange(r, c.maxValue)
      && r.health == v.health
      && r.fatigue <= v.fatigue && r.hunger <= v.hunger && r.thirst <= v.thirst
      && (r.fatigue == 0.0 || r.fatigue == v.fatigue - c.fatigueCostPerAttack)
  {
  }

  /** Using an item keeps every stat within [0, maxValue] and never lowers one. */
  lemma AfterUseClamps(v: Vitals, c: Config, it: Item)
    requires ConfigOk(c) && InRange(v, c.maxValue)
    ensures var r := AfterUse(v, c, it);
      && InRange(r, c.maxValue)
      && r.health >= v.health && r.hunger >= v.hunger && r.thirst >= v.thirst
      && r.fatigue == v.fatigue
  {
  }

  /** Only potions and food change stats; food never heals, whatever health recovery it declares. */
  lemma AfterUseByType(v: Vitals, c: Config, it: Item)
    ensures it.itemType != Potion && it.itemType != Food ==> AfterUse(v, c, it) == v
    ensures it.itemType == Food ==> AfterUse(v, c, it).health == v.health && AfterUse(v, c, it).thirst == v.thirst
    ensures it.itemType == Potion ==> AfterUse(v, c, it).hunger == v.hunger
  {
  }

  /** A potion with no health recovery of its own restores the configured default. */
  lemma PotionFallsBackToDefault(v: Vitals, c: Config, it: Item)
    requires it.itemType == Potion && it.recoveryStats.healthRecovery <= 0.0
    ensures AfterUse(v, c, it).health == MinR(c.maxValue, v.health + c.defaultPotionHealthRecovery)
  {
  }
}
