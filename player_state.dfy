/**
  The two singletons the player's items live in: `Inventory`, the slot list, and
  `PlayerStatus`, the stats and the equipment board. They call each other (using an item
  from a slot equips it on the player, equipping a backpack grows the slot list), so both
  classes share this module. Each singleton is passed explicitly where the scripts read
  its `instance` property; a null argument is a missing instance.
 */
module PlayerState {
  import opened Wrappers
  import opened Items
  import opened SlotStore
  import opened Stats
  import opened Equipment

  /** A slot index `UseItem` acts on: in range, holding an item with a positive count. */
  predicate UsableSlot(s: seq<Slot>, slotIndex: int) {
    0 <= slotIndex < |s| && s[slotIndex].item.Some? && s[slotIndex].amount > 0
  }

  /**
    The effect of `Inventory.UseItem` on the slots and the bonus, for an item `it` taken
    from a usable slot while a player is present: the player's `EquipArmor` grows the
    inventory for a backpack (only when the player is alive), then the inventory itself
    grows again for a Utility item with a slot bonus, or removes one unit of a consumable.
   */
  function InventoryAfterUse(s: seq<Slot>, base: int, bonus: int, it: Item, alive: bool): (seq<Slot>, int) {
    var (s1, b1) := if alive && EquipGrowsInventory(it)
      then Adjust(s, base, bonus, it.GetInventorySlotIncrease()) else (s, bonus);
    if it.itemType == Utility && it.GetInventorySlotIncrease() > 0 then
      Adjust(s1, base, b1, it.GetInventorySlotIncrease())
    else if it.itemType != Tool && it.itemType != Weapon && it.itemType != Utility && it.itemType != Armor then
      (Remove(s1, Some(it), 1).0, b1)
    else (s1, b1)
  }

  /**
    Using a backpack with a slot bonus `n` grows the capacity by `2 * n`: once in
    `PlayerStatus.EquipArmor` and once more in `Inventory.UseItem`. A dead player only gets
    the second growth.
   */
  lemma UsingBackpackGrowsTwice(s: seq<Slot>, base: int, bonus: int, it: Item)
    requires bonus >= 0
    requires it.itemType == Utility && GearSlotOf(it.itemName) == Some(Backpack)
    requires it.GetInventorySlotIncrease() > 0
    ensures var n := it.GetInventorySlotIncrease();
      InventoryAfterUse(s, base, bonus, it, true) == (s + Empties(2 * n), bonus + 2 * n)
    ensures var n := it.GetInventorySlotIncrease();
      InventoryAfterUse(s, base, bonus, it, false) == (s + Empties(n), bonus + n)
  {
    var n := it.GetInventorySlotIncrease();
    AdjustGrowTwice(s, base, bonus, n);
  }

  /**
    Using a consumable (or a resource or crafting station) removes exactly one unit when
    one is held, whether or not the player is alive, and keeps the capacity.
   */
  lemma UsingConsumableRemovesOne(s: seq<Slot>, base: int, bonus: int, it: Item, alive: bool)
    requires it.itemType != Tool && it.itemType != Weapon && it.itemType != Utility && it.itemType != Armor
    requires AllOk(s) && Count(s, it) >= 1
    ensures var (r, newBonus) := InventoryAfterUse(s, base, bonus, it, alive);
      && newBonus == bonus && |r| == |s|
      && Count(r, it) == Count(s, it) - 1
      && AllOk(r)
  {
    RemoveSucceedsIffEnough(s, it, 1);
  }

  /**
    Tools, weapons and non-backpack armor are equipped but stay in the slot list: the
    inventory is unchanged, so the item is held twice until it is unequipped, which adds
    one more unit.
   */
  lemma UsingEquipmentKeepsIt(s: seq<Slot>, base: int, bonus: int, it: Item, alive: bool)
    requires it.IsToolOrWeapon() || (it.itemType == Armor && GearSlotOf(it.itemName) != Some(Backpack))
    ensures InventoryAfterUse(s, base, bonus, it, alive) == (s, bonus)
  {
  }

  class Inventory {
    var slots: seq<Slot>
    const baseSlotCount: int
    var additionalSlots: int
    /** How many times `OnInventoryChanged` has been raised. */
    var changes: nat

    function MaxSlots(): int
      reads this
    {
      baseSlotCount + additionalSlots
    }

    /** A non-negative bonus, at least `MaxSlots()` slots, and every slot well formed. */
    ghost predicate Valid()
      reads this
    {
      additionalSlots >= 0 && |slots| >= MaxSlots() && AllOk(slots)
    }

    twostate predicate AddedBy(item: Option<Item>, amount: int)
      reads this
    {
      && slots == Add(old(slots), item, amount).0
      && additionalSlots == old(additionalSlots)
      && changes == old(changes) + (if item == None || amount <= 0 then 0 else 1)
    }

    twostate predicate RemovedBy(item: Option<Item>, amount: int)
      reads this
    {
      && slots == Remove(old(slots), item, amount).0
      && additionalSlots == old(additionalSlots)
      && changes == old(changes) + (if item == None || amount <= 0 then 0 else 1)
    }

    twostate predicate AdjustedBy(slotChange: int)
      reads this
    {
      && (slots, additionalSlots) == Adjust(old(slots), baseSlotCount, old(additionalSlots), slotChange)
      && changes == old(changes) + 1
    }

    twostate predicate ClearedAll()
      reads this
    {
      slots == Clear(old(slots)) && additionalSlots == old(additionalSlots) && changes == old(changes) + 1
    }

    /** `Awake`: `MaxSlots()` empty slots (none when the base count is not positive). */
    constructor (baseSlotCount: int)
      ensures this.baseSlotCount == baseSlotCount && additionalSlots == 0 && changes == 0
      ensures slots == Empties(if baseSlotCount > 0 then baseSlotCount else 0)
      ensures Valid()
    {
      this.baseSlotCount := baseSlotCount;
      additionalSlots := 0;
      changes := 0;
      var s: seq<Slot> := [];
      var i := 0;
      while i < baseSlotCount
        invariant 0 <= i <= (if baseSlotCount > 0 then baseSlotCount else 0)
        invariant s == Empties(i)
      {
        s := s + [EmptySlot];
        i := i + 1;
        assert s == Empties(i);
      }
      slots := s;
    }

    /** `AddItem`: top up the slots already holding the item, then fill empty slots, left to right. */
    method AddItem(item: Option<Item>, amount: int) returns (ok: bool)
      modifies this
      ensures AddedBy(item, amount) && ok == Add(old(slots), item, amount).1
      ensures old(Valid()) && (item.Some? ==> item.value.maxStackSize > 0) ==> Valid()
    {
      if item == None || amount <= 0 {
        return false;
      }
      var it := item.value;
      ghost var s0 := slots;
      var s, pending := TopUpPass(slots, it, amount);
      if pending > 0 {
        s, pending := FillPass(s, it, pending);
      }
      assert Add(s0, item, amount) == (s, pending <= 0);
      slots := s;
      changes := changes + 1;
      if old(Valid()) && it.maxStackSize > 0 {
        AddKeepsSlotsOk(s0, item, amount);
      }
      assert old(slots) == s0 && Add(s0, item, amount).0 == s;
      return pending <= 0;
    }

    /**
      `RemoveItem`: take the units from the first slot that has enough, draining smaller
      stacks of the item on the way; drained stacks stay drained when the scan fails.
     */
    method RemoveItem(item: Option<Item>, amount: int) returns (ok: bool)
      modifies this
      ensures RemovedBy(item, amount) && ok == Remove(old(slots), item, amount).1
      ensures old(Valid()) ==> Valid()
    {
      if item == None || amount <= 0 {
        return false;
      }
      var it := item.value;
      var pending := amount;
      var s := slots;
      ghost var s0 := s;
      RemoveScanStart(s0, it, amount);
      var i := 0;
      ok := false;
      while i < |s|
        invariant RemoveScanFrom(s0, s, i, it, amount, pending) && pending > 0
        invariant unchanged(this)
      {
        RemoveScanStep(s0, s, i, it, amount, pending);
        if s[i].item == Some(it) && s[i].amount >= pending {
          ghost var before := s;
          s := s[i := Slot(s[i].item, s[i].amount - pending)];
          if s[i].amount <= 0 {
            s := s[i := EmptySlot];
          }
          assert s == before[i := if before[i].amount - pending <= 0 then EmptySlot
                                  else Slot(before[i].item, before[i].amount - pending)];
          ok := true;
          break;
        } else if s[i].item == Some(it) && s[i].amount > 0 {
          // the source tests `amount <= 0` here, which cannot hold: this stack was smaller
          pending := pending - s[i].amount;
          s := s[i := EmptySlot];
        }
        i := i + 1;
      }
      if !ok {
        RemoveScanEnd(s0, s, it, amount, pending);
      }
      assert Remove(s0, item, amount) == (s, ok);
      slots := s;
      changes := changes + 1;
      if old(Valid()) {
        RemoveKeepsSlotsOk(s0, item, amount);
      }
    }

    /** `HasItem`, with the item the name lookup found (`None` when it found none). */
    method HasItem(item: Option<Item>, amount: int) returns (r: bool)
      ensures r <==> item.Some? && Count(slots, item.value) >= amount
    {
      if item == None {
        return false;
      }
      var totalAmount := 0;
      var i := 0;
      while i < |slots|
        invariant 0 <= i <= |slots|
        invariant totalAmount == Count(slots[..i], item.value)
      {
        CountAppend(slots[..i], [slots[i]], item.value);
        assert slots[..i + 1] == slots[..i] + [slots[i]];
        if slots[i].item == item {
          totalAmount := totalAmount + slots[i].amount;
        }
        i := i + 1;
      }
      assert slots[..i] == slots;
      return totalAmount >= amount;
    }

    /** `ClearInventory`: every slot becomes (null, 0); the slot count and the bonus stay. */
    method ClearInventory()
      modifies this
      ensures ClearedAll()
      ensures old(Valid()) ==> Valid()
    {
      var i := 0;
      while i < |slots|
        invariant 0 <= i <= |slots| == |old(slots)|
        invariant forall j :: 0 <= j < i ==> slots[j] == EmptySlot
        invariant additionalSlots == old(additionalSlots) && changes == old(changes)
      {
        slots := slots[i := EmptySlot];
        i := i + 1;
      }
      assert slots == Clear(old(slots));
      ClearEmptiesAll(old(slots), NewItem(0, "", Resource));
      changes := changes + 1;
    }

    /**
      `AdjustSlots`: change the bonus (floored at 0); append empty slots for a growth; for a
      shrink remove empty slots scanning from the end, at most as many as the capacity lost.
     */
    method AdjustSlots(slotChange: int)
      modifies this
      ensures AdjustedBy(slotChange)
      ensures old(Valid()) ==> Valid()
    {
      var previousMaxSlots := MaxSlots();
      additionalSlots := additionalSlots + slotChange;
      if additionalSlots < 0 {
        additionalSlots := 0;
      }
      var s := slots;
      ghost var s0 := s;
      ghost var r := Adjust(s0, baseSlotCount, old(additionalSlots), slotChange);
      assert additionalSlots == r.1;
      if MaxSlots() > previousMaxSlots {
        var i := previousMaxSlots;
        while i < MaxSlots()
          invariant previousMaxSlots <= i <= MaxSlots()
          invariant s == s0 + Empties(i - previousMaxSlots)
          invariant slots == s0 && additionalSlots == r.1 && changes == old(changes)
        {
          s := s + [EmptySlot];
          i := i + 1;
          assert s == s0 + Empties(i - previousMaxSlots);
        }
        assert s == r.0;
      } else if MaxSlots() < previousMaxSlots {
        var slotsToRemove := previousMaxSlots - MaxSlots();
        ghost var k0 := slotsToRemove;
        ghost var tail: seq<Slot> := [];
        ShrinkStart(s0, k0);
        var i := |s| - 1;
        while i >= 0 && slotsToRemove > 0
          invariant ShrinkFrom(s0, k0, s, i, slotsToRemove, tail)
          invariant slots == s0 && additionalSlots == r.1 && changes == old(changes)
          decreases i + 1
        {
          ghost var next, left, nextTail := ShrinkStep(s0, k0, s, i, slotsToRemove, tail);
          if s[i].item == None {
            s := s[..i] + s[i + 1..];
            slotsToRemove := slotsToRemove - 1;
          }
          tail := nextTail;
          i := i - 1;
        }
        ShrinkEnd(s0, k0, s, i, slotsToRemove, tail);
        assert s == r.0;
      }
      slots := s;
      changes := changes + 1;
      assert s == r.0;
      if old(Valid()) {
        AdjustKeepsCapacity(s0, baseSlotCount, old(additionalSlots), slotChange);
        AdjustKeepsSlotsOk(s0, baseSlotCount, old(additionalSlots), slotChange);
      }
    }

    /**
      `UseItem(slotIndex)`: for a usable slot and a present player, hand the item to the
      player, then grow the capacity for a Utility item with a slot bonus, or remove one
      unit of anything that is not equipment.
     */
    method UseItem(slotIndex: int, player: PlayerStatus?)
      modifies this, player
      ensures !UsableSlot(old(slots), slotIndex) || player == null ==>
        unchanged(this) && (player != null ==> unchanged(player))
      ensures UsableSlot(old(slots), slotIndex) && player != null ==>
        var it := old(slots)[slotIndex].item.value;
        && player.UsedItem(it)
        && (slots, additionalSlots)
           == InventoryAfterUse(old(slots), baseSlotCount, old(additionalSlots), it, !old(player.isDead))
        && changes >= old(changes)
      ensures old(Valid()) ==> Valid()
    {
      if slotIndex < 0 || slotIndex >= |slots| || slots[slotIndex].item == None || slots[slotIndex].amount <= 0 {
        return;
      }
      var it := slots[slotIndex].item.value;
      if player != null {
        ghost var wasValid := Valid();
        ghost var s0, b0 := slots, additionalSlots;
        player.UseItem(Some(it), this);
        if wasValid {
          AdjustKeepsSlotsOk(s0, baseSlotCount, b0, it.GetInventorySlotIncrease());
          AdjustKeepsCapacity(s0, baseSlotCount, b0, it.GetInventorySlotIncrease());
        }
        if it.itemType == Utility && it.GetInventorySlotIncrease() > 0 {
          AdjustSlots(it.GetInventorySlotIncrease());
        } else if it.itemType != Tool && it.itemType != Weapon && it.itemType != Utility && it.itemType != Armor {
          var removed := RemoveItem(Some(it), 1);
        }
      }
    }
  }

  /**
    `PlayerStatus`: the four survival stats, the equipment board and the alive/resting flags.
    The four `current*` stats are held as one `vitals` record and the eleven equipment fields
    (two weapon slots, their durability counters, the active weapon and six gear slots) as one
    `board` record.
   */
  class PlayerStatus {
    const config: Config
    var vitals: Vitals
    var board: Board
    var isResting: bool
    var isDead: bool
    /** The arguments `OnWeaponSwitched` has been raised with, oldest first. */
    var weaponEvents: seq<Option<Item>>

    /** Every stat within [0, maxValue] under a sane configuration, and a well formed active pointer. */
    ghost predicate Valid()
      reads this
    {
      ConfigOk(config) && InRange(vitals, config.maxValue) && ActiveIsEquipped(board)
    }

    twostate predicate VitalsKept()
      reads this
    {
      vitals == old(vitals) && isDead == old(isDead) && isResting == old(isResting)
    }

    /** The player's side of using `it`: nothing when dead, else the stat and board effects of `UseItem`. */
    twostate predicate UsedItem(it: Item)
      reads this
    {
      && isDead == old(isDead) && isResting == old(isResting)
      && if old(isDead) then
           vitals == old(vitals) && board == old(board) && weaponEvents == old(weaponEvents)
         else
           vitals == AfterUse(old(vitals), config, it)
           && board == BoardAfterUse(old(board), it)
           && weaponEvents == old(weaponEvents) + (if it.IsToolOrWeapon() then [board.activeWeapon] else [])
    }

    /**
      `Awake` and `Start`: every stat at the cap, the equipment the inspector assigned with
      both durability counters at their default 0, and weapon1 active.
     */
    constructor (config: Config, preset: Board)
      ensures this.config == config
      ensures vitals == Full(config.maxValue) && !isDead && !isResting
      ensures board == preset.(activeWeapon := preset.weapon1, durability1 := 0.0, durability2 := 0.0)
      ensures weaponEvents == []
      ensures ConfigOk(config) ==> Valid()
    {
      this.config := config;
      isResting, isDead := false, false;
      weaponEvents := [];
      vitals := Full(config.maxValue);
      board := preset.(durability1 := 0.0, durability2 := 0.0, activeWeapon := preset.weapon1);
    }

    /**
      The state reset at the end of `Respawn`, against the state before it: full stats,
      alive and not resting, the inventory cleared, all equipment gone, the event raised.
     */
    twostate predicate Reset(inv: Inventory?)
      reads this, inv
    {
      && vitals == Full(config.maxValue) && !isDead && !isResting
      && board == EmptyBoard
      && weaponEvents == old(weaponEvents) + [None]
      && (inv != null ==> inv.ClearedAll())
    }

    /**
      What `Die` does to a living player. `Respawn` is started as a coroutine, which runs at
      once up to its first wait. On the base map it never waits, so the whole reset happens
      inside `Die`; elsewhere it waits for the scene load, and the player stays dead with
      nothing else changed until the later `Respawn`.
     */
    twostate predicate Died(onBaseMap: bool, inv: Inventory?)
      reads this, inv
    {
      if onBaseMap then Reset(inv)
      else
        && isDead && vitals == old(vitals) && isResting == old(isResting)
        && board == old(board) && weaponEvents == old(weaponEvents)
        && (inv != null ==> unchanged(inv))
    }

    /**
      `TakeDamage`: a no-op when dead; else health drops (floored at 0) and the death test
      runs. A lethal hit kills the player, or respawns them at once on the base map.
     */
    method TakeDamage(damage: real, onBaseMap: bool, inv: Inventory?)
      modifies this, inv
      ensures old(isDead) ==> unchanged(this) && (inv != null ==> unchanged(inv))
      ensures !old(isDead) && (!Lethal(AfterDamage(old(vitals), damage)) || !onBaseMap) ==>
        && vitals == AfterDamage(old(vitals), damage) && isDead == Lethal(vitals)
        && isResting == old(isResting) && board == old(board) && weaponEvents == old(weaponEvents)
        && (inv != null ==> unchanged(inv))
      ensures !old(isDead) && Lethal(AfterDamage(old(vitals), damage)) && onBaseMap ==> Reset(inv)
      ensures old(Valid()) && damage >= 0.0 ==> Valid()
    {
      if isDead {
        return;
      }
      if Valid() && damage >= 0.0 {
        AfterDamageClamps(vitals, damage, config.maxValue);
      }
      vitals := vitals.(health := MaxR(0.0, vitals.health - damage));
      CheckStatus(onBaseMap, inv);
    }

    /** `CheckStatus`: die when health, hunger or thirst is at 0 or below (low fatigue only warns). */
    method CheckStatus(onBaseMap: bool, inv: Inventory?)
      modifies this, inv
      ensures !old(isDead) && Lethal(old(vitals)) ==> Died(onBaseMap, inv)
      ensures old(isDead) || !Lethal(old(vitals)) ==> unchanged(this) && (inv != null ==> unchanged(inv))
      ensures old(Valid()) ==> Valid()
    {
      if vitals.health <= 0.0 || vitals.hunger <= 0.0 || vitals.thirst <= 0.0 {
        Die(onBaseMap, inv);
      }
    }

    /** `Die`: mark the player dead once and start `Respawn` (see `Died`). */
    method Die(onBaseMap: bool, inv: Inventory?)
      modifies this, inv
      ensures old(isDead) ==> unchanged(this) && (inv != null ==> unchanged(inv))
      ensures !old(isDead) ==> Died(onBaseMap, inv)
      ensures old(Valid()) ==> Valid()
    {
      if isDead {
        return;
      }
      isDead := true;
      if onBaseMap {
        Respawn(inv);
      }
    }

    /** `SwitchWeapon(slot)`: activate an occupied slot 1 or 2, and always raise the event. */
    method SwitchWeapon(slot: int)
      modifies this
      ensures board == Equipment.SwitchWeapon(old(board), slot)
      ensures weaponEvents == old(weaponEvents) + [board.activeWeapon]
      ensures VitalsKept()
      ensures old(Valid()) ==> Valid()
    {
      SwitchWeaponOnlyToOccupiedSlot(board, slot);
      if slot == 1 && board.weapon1 != None {
        board := board.(activeWeapon := board.weapon1);
      } else if slot == 2 && board.weapon2 != None {
        board := board.(activeWeapon := board.weapon2);
      }
      weaponEvents := weaponEvents + [board.activeWeapon];
    }

    /** `UseItem`: a no-op for a dead player or a null item; else restore stats or equip. */
    method UseItem(item: Option<Item>, inv: Inventory?)
      modifies this, inv
      ensures item == None ==> unchanged(this) && (inv != null ==> unchanged(inv))
      ensures item.Some? ==> UsedItem(item.value)
      ensures inv != null && item.Some? ==>
        if !old(isDead) && EquipGrowsInventory(item.value)
        then inv.AdjustedBy(item.value.GetInventorySlotIncrease())
        else unchanged(inv)
      ensures old(Valid()) ==> Valid()
    {
      if isDead || item == None {
        return;
      }
      var it := item.value;
      if Valid() {
        AfterUseClamps(vitals, config, it);
        BoardAfterUseKeepsActiveEquipped(board, it);
      }
      var healthToAdd := if it.GetHealthRecovery() > 0.0 then it.GetHealthRecovery() else config.defaultPotionHealthRecovery;
      var hungerToAdd := if it.GetHungerRecovery() > 0.0 then it.GetHungerRecovery() else config.defaultFoodHungerRecovery;
      var thirstToAdd := if it.GetThirstRecovery() > 0.0 then it.GetThirstRecovery() else config.defaultPotionThirstRecovery;
      match it.itemType {
        case Potion =>
          vitals := vitals.(health := MinR(config.maxValue, vitals.health + healthToAdd),
                            thirst := MinR(config.maxValue, vitals.thirst + thirstToAdd));
        case Food =>
          vitals := vitals.(hunger := MinR(config.maxValue, vitals.hunger + hungerToAdd));
        case Tool =>
          EquipWeapon(it);
        case Weapon =>
          EquipWeapon(it);
        case Armor =>
          EquipArmor(it, inv);
        case Utility =>
          EquipArmor(it, inv);
        case Resource =>
        case CraftingStation =>
      }
    }

    /** `EquipWeapon`: fill weapon1, else weapon2, else overwrite weapon1; always raise the event. */
    method EquipWeapon(item: Item)
      modifies this
      ensures board == Equipment.EquipWeapon(old(board), item)
      ensures weaponEvents == old(weaponEvents) + [board.activeWeapon]
      ensures VitalsKept()
    {
      if board.weapon1 == None {
        board := board.(weapon1 := Some(item), durability1 := item.GetMaxDurability(), activeWeapon := Some(item));
      } else if board.weapon2 == None {
        board := board.(weapon2 := Some(item), durability2 := item.GetMaxDurability());
        if board.activeWeapon == None {
          board := board.(activeWeapon := board.weapon2);
        }
      } else {
        board := board.(weapon1 := Some(item), durability1 := item.GetMaxDurability(), activeWeapon := Some(item));
      }
      weaponEvents := weaponEvents + [board.activeWeapon];
    }

    /** `EquipArmor`: put the item in the first gear slot its lower-cased name matches; a backpack also grows the inventory. */
    method EquipArmor(item: Item, inv: Inventory?)
      modifies this, inv
      ensures board == Equipment.EquipArmor(old(board), item)
      ensures weaponEvents == old(weaponEvents) && VitalsKept()
      ensures inv != null ==>
        if GearSlotOf(item.itemName) == Some(Backpack)
        then inv.AdjustedBy(item.GetInventorySlotIncrease())
        else unchanged(inv)
    {
      var s := Text.ToLower(item.itemName);
      if Text.Contains(s, "inner shirt") {
        board := board.(innerShirt := Some(item));
      } else if Text.Contains(s, "outer shirt") {
        board := board.(outerShirt := Some(item));
      } else if Text.Contains(s, "pants") {
        board := board.(pants := Some(item));
      } else if Text.Contains(s, "shoes") {
        board := board.(shoes := Some(item));
      } else if Text.Contains(s, "hat") {
        board := board.(hat := Some(item));
      } else if Text.Contains(s, "backpack") {
        board := board.(backpack := Some(item));
        if inv != null {
          inv.AdjustSlots(item.GetInventorySlotIncrease());
        }
      }
    }

    /**
      `ReduceDurability(weapon)`: wear the slot holding the weapon (weapon1 first); when its
      counter reaches 0 remove one unit from the inventory, clear the slot, fail the active
      pointer over and raise the event.
     */
    method ReduceDurability(weapon: Option<Item>, inv: Inventory?)
      modifies this, inv
      ensures var (b, removed) := Equipment.ReduceDurability(old(board), weapon);
        && board == b
        && weaponEvents == old(weaponEvents) + (if removed then [board.activeWeapon] else [])
        && (inv != null ==> if removed then inv.RemovedBy(weapon, 1) else unchanged(inv))
      ensures VitalsKept()
      ensures old(Valid()) ==> Valid()
    {
      if Valid() {
        ReduceDurabilityKeepsActiveEquipped(board, weapon);
      }
      if weapon == None {
        return;
      }
      if weapon == board.weapon1 {
        board := board.(durability1 := board.durability1 - weapon.value.GetDurabilityPerUse());
        if board.durability1 <= 0.0 {
          if inv != null {
            var removed := inv.RemoveItem(weapon, 1);
          }
          board := board.(weapon1 := None);
          if board.activeWeapon == weapon {
            board := board.(activeWeapon := board.weapon2);
          }
          weaponEvents := weaponEvents + [board.activeWeapon];
        }
      } else if weapon == board.weapon2 {
        board := board.(durability2 := board.durability2 - weapon.value.GetDurabilityPerUse());
        if board.durability2 <= 0.0 {
          if inv != null {
            var removed := inv.RemoveItem(weapon, 1);
          }
          board := board.(weapon2 := None);
          if board.activeWeapon == weapon {
            board := board.(activeWeapon := board.weapon1);
          }
          weaponEvents := weaponEvents + [board.activeWeapon];
        }
      }
    }

    /** `ConsumeStatsOnAttack`: fatigue, hunger and thirst drop by their costs, floored at 0 (dead or alive). */
    method ConsumeStatsOnAttack()
      modifies this
      ensures vitals == AfterAttack(old(vitals), config)
      ensures isDead == old(isDead) && isResting == old(isResting)
      ensures board == old(board) && weaponEvents == old(weaponEvents)
      ensures old(Valid()) ==> Valid()
    {
      if Valid() {
        AfterAttackClamps(vitals, config);
      }
      vitals := vitals.(fatigue := MaxR(0.0, vitals.fatigue - config.fatigueCostPerAttack),
                        hunger := MaxR(0.0, vitals.hunger - config.hungerCostPerAttack),
                        thirst := MaxR(0.0, vitals.thirst - config.thirstCostPerAttack));
    }

    /** `ToggleRest`: flip resting, unless dead. */
    method ToggleRest()
      modifies this
      ensures isResting == (if old(isDead) then old(isResting) else !old(isResting))
      ensures vitals == old(vitals) && isDead == old(isDead)
      ensures board == old(board) && weaponEvents == old(weaponEvents)
    {
      if isDead {
        return;
      }
      isResting := !isResting;
    }

    /**
      The state reset at the end of `Respawn`: full stats, alive and not resting, the
      inventory cleared (its bonus capacity is kept), all equipment gone, and the event raised.
     */
    method Respawn(inv: Inventory?)
      modifies this, inv
      ensures vitals == Full(config.maxValue) && !isDead && !isResting
      ensures board == EmptyBoard
      ensures weaponEvents == old(weaponEvents) + [None]
      ensures inv != null ==> inv.ClearedAll()
      ensures ConfigOk(config) ==> Valid()
    {
      vitals := Full(config.maxValue);
      isDead := false;
      isResting := false;
      if inv != null {
        inv.ClearInventory();
      }
      board := EmptyBoard;
      weaponEvents := weaponEvents + [board.activeWeapon];
    }

    /**
      `UnequipWeapon1` as written: hand weapon1 back to the inventory, clear its slot and
      counter, and only then compare the active pointer with the (now empty) slot.
     */
    method UnequipWeapon1(inv: Inventory?)
      modifies this, inv
      ensures var (b, back) := Equipment.UnequipWeapon1(old(board));
        && board == b
        && weaponEvents == old(weaponEvents) + (if back.Some? then [board.activeWeapon] else [])
        && (inv != null ==> if back.Some? then inv.AddedBy(back, 1) else unchanged(inv))
      ensures VitalsKept()
    {
      if board.weapon1 != None {
        if inv != null {
          var added := inv.AddItem(board.weapon1, 1);
        }
        board := board.(weapon1 := None, durability1 := 0.0);
        if board.activeWeapon == board.weapon1 {
          board := board.(activeWeapon := board.weapon2);
        }
        weaponEvents := weaponEvents + [board.activeWeapon];
      }
    }

    /** `UnequipWeapon2` as written, symmetric to `UnequipWeapon1`. */
    method UnequipWeapon2(inv: Inventory?)
      modifies this, inv
      ensures var (b, back) := Equipment.UnequipWeapon2(old(board));
        && board == b
        && weaponEvents == old(weaponEvents) + (if back.Some? then [board.activeWeapon] else [])
        && (inv != null ==> if back.Some? then inv.AddedBy(back, 1) else unchanged(inv))
      ensures VitalsKept()
    {
      if board.weapon2 != None {
        if inv != null {
          var added := inv.AddItem(board.weapon2, 1);
        }
        board := board.(weapon2 := None, durability2 := 0.0);
        if board.activeWeapon == board.weapon2 {
          board := board.(activeWeapon := board.weapon1);
        }
        weaponEvents := weaponEvents + [board.activeWeapon];
      }
    }

    /** What every gear `Unequip*` method promises for its slot `g`. */
    twostate predicate GearUnequipped(g: GearSlot, inv: Inventory?)
      reads this, inv
    {
      var (b, back) := UnequipGear(old(board), g);
      && board == b
      && weaponEvents == old(weaponEvents) && VitalsKept()
      && (inv != null ==> if back.Some? then inv.AddedBy(back, 1) else unchanged(inv))
    }

    method UnequipInnerShirt(inv: Inventory?)
      modifies this, inv
      ensures GearUnequipped(InnerShirt, inv)
      ensures old(Valid()) ==> Valid()
    {
      if board.innerShirt != None {
        if inv != null {
          var added := inv.AddItem(board.innerShirt, 1);
        }
        board := board.(innerShirt := None);
      }
    }

    method UnequipOuterShirt(inv: Inventory?)
      modifies this, inv
      ensures GearUnequipped(OuterShirt, inv)
      ensures old(Valid()) ==> Valid()
    {
      if board.outerShirt != None {
        if inv != null {
          var added := inv.AddItem(board.outerShirt, 1);
        }
        board := board.(outerShirt := None);
      }
    }

    method UnequipPants(inv: Inventory?)
      modifies this, inv
      ensures GearUnequipped(Pants, inv)
      ensures old(Valid()) ==> Valid()
    {
      if board.pants != None {
        if inv != null {
          var added := inv.AddItem(board.pants, 1);
        }
        board := board.(pants := None);
      }
    }

    method UnequipShoes(inv: Inventory?)
      modifies this, inv
      ensures GearUnequipped(Shoes, inv)
      ensures old(Valid()) ==> Valid()
    {
      if board.shoes != None {
        if inv != null {
          var added := inv.AddItem(board.shoes, 1);
        }
        board := board.(shoes := None);
      }
    }

    method UnequipHat(inv: Inventory?)
      modifies this, inv
      ensures GearUnequipped(Hat, inv)
      ensures old(Valid()) ==> Valid()
    {
      if board.hat != None {
        if inv != null {
          var added := inv.AddItem(board.hat, 1);
        }
        board := board.(hat := None);
      }
    }

    /** `UnequipBackpack`: hand the backpack back first, then shrink the inventory by its bonus. */
    method UnequipBackpack(inv: Inventory?)
      modifies this, inv
      ensures var (b, back) := UnequipGear(old(board), Backpack);
        && board == b
        && weaponEvents == old(weaponEvents) && VitalsKept()
        && (inv != null ==>
              if back.Some? then
                var added := Add(old(inv.slots), back, 1).0;
                && (inv.slots, inv.additionalSlots)
                   == Adjust(added, inv.baseSlotCount, old(inv.additionalSlots), -back.value.GetInventorySlotIncrease())
                && inv.changes == old(inv.changes) + 2
              else unchanged(inv))
      ensures old(Valid()) ==> Valid()
    {
      if board.backpack != None {
        if inv != null {
          var added := inv.AddItem(board.backpack, 1);
          inv.AdjustSlots(-board.backpack.value.GetInventorySlotIncrease());
        }
        board := board.(backpack := None);
      }
    }
  }
}
