/**
  The item catalogue entry (`Item`, a ScriptableObject authored in the editor) and its
  category-gated attribute getters. Items are never mutated at run time; every script
  compares them by reference, which the model represents by the `id` field.
 */
module Items {

  datatype ItemType = Resource | Tool | Weapon | Armor | Utility | CraftingStation | Potion | Food

  datatype ResourceType = Wood | Stone | Ore | Special

  datatype RecoveryStats = RecoveryStats(healthRecovery: real, hungerRecovery: real, thirstRecovery: real)

  datatype EquipmentStats = EquipmentStats(maxDurability: real, attackPower: real, durabilityPerUse: real, attackRange: real)

  datatype HarvestStats = HarvestStats(woodEfficiency: real, stoneEfficiency: real, oreEfficiency: real)

  datatype UtilityStats = UtilityStats(inventorySlotIncrease: int)

  /** The stack size an item asset gets unless its author changes it. */
  const DefaultMaxStackSize: int := 99

  /** The attack range reported for anything that is not a tool or a weapon. */
  const DefaultAttackRange: real := 2.0

  datatype Item = Item(
    id: nat,
    itemName: string,
    description: string,
    maxStackSize: int,
    itemType: ItemType,
    recoveryStats: RecoveryStats,
    equipmentStats: EquipmentStats,
    harvestStats: HarvestStats,
    utilityStats: UtilityStats)
  {
    predicate IsToolOrWeapon() {
      itemType == Tool || itemType == Weapon
    }

    function GetHealthRecovery(): (r: real)
      ensures itemType != Potion && itemType != Food ==> r == 0.0
    {
      if itemType == Potion || itemType == Food then recoveryStats.healthRecovery else 0.0
    }

    function GetHungerRecovery(): (r: real)
      ensures itemType != Food ==> r == 0.0
    {
      if itemType == Food then recoveryStats.hungerRecovery else 0.0
    }

    function GetThirstRecovery(): (r: real)
      ensures itemType != Potion ==> r == 0.0
    {
      if itemType == Potion then recoveryStats.thirstRecovery else 0.0
    }

    function GetMaxDurability(): (r: real)
      ensures !IsToolOrWeapon() ==> r == 0.0
    {
      if IsToolOrWeapon() then equipmentStats.maxDurability else 0.0
    }

    function GetAttackPower(): (r: real)
      ensures !IsToolOrWeapon() ==> r == 0.0
    {
      if IsToolOrWeapon() then equipmentStats.attackPower else 0.0
    }

    function GetDurabilityPerUse(): (r: real)
      ensures !IsToolOrWeapon() ==> r == 0.0
    {
      if IsToolOrWeapon() then equipmentStats.durabilityPerUse else 0.0
    }

    function GetAttackRange(): (r: real)
      ensures !IsToolOrWeapon() ==> r == DefaultAttackRange
    {
      if IsToolOrWeapon() then equipmentStats.attackRange else DefaultAttackRange
    }

    /** Only tools harvest, and nothing harvests `Special` resources. */
    function GetHarvestEfficiency(resourceType: ResourceType): (r: real)
      ensures itemType != Tool ==> r == 0.0
      ensures resourceType == Special ==> r == 0.0
    {
      if itemType != Tool then 0.0
      else match resourceType
        case Wood => harvestStats.woodEfficiency
        case Stone => harvestStats.stoneEfficiency
        case Ore => harvestStats.oreEfficiency
        case Special => 0.0
    }

    function GetInventorySlotIncrease(): (r: int)
      ensures itemType != Utility ==> r == 0
    {
      if itemType == Utility then utilityStats.inventorySlotIncrease else 0
    }
  }

  /** A freshly created item asset: every numeric field at the engine's zero default except the stack size. */
  function NewItem(id: nat, itemName: string, itemType: ItemType): (it: Item)
    ensures it.maxStackSize == DefaultMaxStackSize
    ensures it.id == id && it.itemName == itemName && it.itemType == itemType
    ensures it.GetInventorySlotIncrease() == 0 && it.GetMaxDurability() == 0.0
    ensures it.GetHealthRecovery() == 0.0 && it.GetHungerRecovery() == 0.0 && it.GetThirstRecovery() == 0.0
    ensures it.GetAttackPower() == 0.0 && it.GetDurabilityPerUse() == 0.0
    ensures it.GetAttackRange() == (if itemType == Tool || itemType == Weapon then 0.0 else 2.0)
    ensures forall rt :: it.GetHarvestEfficiency(rt) == 0.0
  {
    Item(id, itemName, "", DefaultMaxStackSize, itemType,
         RecoveryStats(0.0, 0.0, 0.0), EquipmentStats(0.0, 0.0, 0.0, 0.0),
         HarvestStats(0.0, 0.0, 0.0), UtilityStats(0))
  }
}
