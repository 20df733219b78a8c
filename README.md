# Inventory, equipment and destructible tiles

This project models the bookkeeping core of a top-down survival game written for Unity in
C#. It covers four pieces:

- **The slot store.** This is the `Inventory` singleton: a list of (item, amount) slots.
  - `AddItem` places a number of units in two passes. The first tops up stacks already
    holding the item; the second fills empty slots, left to right.
  - `RemoveItem` scans left to right and may drain several stacks.
  - `AdjustSlots` grows or shrinks the capacity by a bonus, floored at zero. A shrink
    removes empty slots from the end.
  - `ClearInventory`, `HasItem` and `UseItem` complete the store.
- **The player**, `PlayerStatus`:
  - the four survival stats (health, fatigue, hunger, thirst), clamped to [0, maxValue];
  - the alive and resting flags;
  - the equipment board: two weapon slots with durability counters, an active-weapon
    pointer and six gear slots.

  In the model the four `current*` stat fields are one `vitals` record. The eleven
  equipment fields are one `board` record.
- **The destructible-tile table**, `ResourceTilemapManager`. It maps cells to the remaining
  health of each destructible resource tile.
  - It is built by scanning the tilemap's bounds. The scan can filter out cells whose
    saved `Tile_x_y_z` flag is 0.
  - Damage and destruction remove entries and erase the tile.
  - A removed tile drops its item into the inventory or as pickups.
- **The item catalogue entry**, `Item`, and its category-gated attribute getters.

Layout:

| File | Module | Contents |
|---|---|---|
| `wrappers.dfy` | `Wrappers` | the null reference as `Option`; `Mathf.Min` and `Mathf.Max` |
| `items.dfy` | `Items` | `Item`, its enums and getters |
| `text.dfy` | `Text` | ASCII `ToLower`, `Contains` and decimal formatting of an `int` |
| `stats.dfy` | `Stats` | the stat record and its clamped updates |
| `equipment.dfy` | `Equipment` | the board record, its transitions as functions, and their lemmas |
| `slot_store.dfy` | `SlotStore` | the slot list as a value: functions that follow each `Inventory` loop slot by slot, and their lemmas |
| `player_state.dfy` | `PlayerState` | the classes `Inventory` and `PlayerStatus` |
| `resource_tiles.dfy` | `ResourceTiles` | cells, bounds, the tile asset, the scans as functions, and the classes `Tilemap` and `ResourceTilemapManager` |

`Inventory` and `PlayerStatus` call each other, so both classes live in one module:

- using an item from a slot equips it on the player;
- equipping a backpack grows the inventory;
- wearing out or unequipping gear returns units to the inventory, or removes them.

Each class method is proved against a specification function on values. For example,
`AddItem` is proved against `Add`, `RemoveItem` against `Remove`, `AdjustSlots` against
`Adjust`, `PlayerStatus.ReduceDurability` against `Equipment.ReduceDurability`,
`InitializeTilemap` against `Tracked` and `LoadTilemapForMapBasic` against `LoadScan`.
What the source promises is then proved about those functions as lemmas.

Where the engine or a singleton is involved, the model makes it explicit:

- **Singletons.** `Inventory.instance` and `PlayerStatus.instance` become parameters; a
  null argument is a missing instance.
- **Events.** Raising `OnInventoryChanged` becomes the `changes` counter. The arguments of
  `OnWeaponSwitched` become the `weaponEvents` log.
- **Saved flags.** `PlayerPrefs` is a map from keys to ints.
- **Drop count.** The random draw comes in as a `roll` parameter.
- **Pickups.** The spawned `DroppedItem` pickups are recorded in the `dropped` log.

Three behaviours of the code that a reader might expect otherwise:

- `AddItem` returns false when only part of the amount fits.
- `RemoveItem` is not all-or-nothing: stacks drained before a failed scan stay drained.
- A weapon whose durability runs out is removed from the inventory (`RemoveItem`), not
  returned to it.

## Model

| member | source | states |
|---|---|---|
| `Items.Item.GetHealthRecovery` | Assets/Scripts/Item.cs:68 | health recovery is 0 unless the item is a potion or food |
| `Items.Item.GetHungerRecovery` | Assets/Scripts/Item.cs:69 | hunger recovery is 0 unless the item is food |
| `Items.Item.GetThirstRecovery` | Assets/Scripts/Item.cs:70 | thirst recovery is 0 unless the item is a potion |
| `Items.Item.GetMaxDurability` | Assets/Scripts/Item.cs:71 | 0 unless the item is a tool or a weapon |
| `Items.Item.GetAttackPower` | Assets/Scripts/Item.cs:72 | 0 unless the item is a tool or a weapon |
| `Items.Item.GetDurabilityPerUse` | Assets/Scripts/Item.cs:73 | 0 unless the item is a tool or a weapon |
| `Items.Item.GetAttackRange` | Assets/Scripts/Item.cs:74 | 2 unless the item is a tool or a weapon |
| `Items.Item.GetHarvestEfficiency` | Assets/Scripts/Item.cs:75-89 | 0 for anything but a tool, and 0 for the Special resource type |
| `Items.Item.GetInventorySlotIncrease` | Assets/Scripts/Item.cs:90 | 0 unless the item is a utility item |
| `Items.NewItem` | Assets/Scripts/Item.cs:9-46 | a new item asset stacks to 99; every getter returns 0, except `GetAttackRange`, which is 2 for anything but a tool or a weapon |
| `Wrappers.MinR` | Assets/Scripts/PlayerStatus.cs:228-232 | `Mathf.Min`: at most both arguments, and equal to one of them |
| `Wrappers.MaxR` | Assets/Scripts/PlayerStatus.cs:104 | `Mathf.Max`: at least both arguments, and equal to one of them |
| `Wrappers.Min` | Assets/Scripts/InventoryUI.cs:57 | integer `Mathf.Min`, as above |
| `Text.ToLowerIdempotent` | Assets/Scripts/PlayerStatus.cs:274 | lower-casing a lower-cased name changes nothing |
| `Text.ContainsIffOccurs` | Assets/Scripts/PlayerStatus.cs:276 | `Contains` holds exactly when the fragment occurs at some index |
| `Text.IntToString` | ResourceTilemapManager.cs:93 | an interpolated `int` is non-empty; a non-negative one is all digits, a negative one is '-' followed by at least one digit |
| `Text.IntToStringInjective` | ResourceTilemapManager.cs:93 | distinct integers are written differently |
| `Text.SplitAtSeparator` | ResourceTilemapManager.cs:93 | two pieces without '_' joined by '_' can be split back apart |
| `SlotStore.Empties` | Assets/Scripts/InventoryUI.cs:235-239 | `n` slots, each (null, 0) |
| `SlotStore.TopUpPass` | Assets/Scripts/InventoryUI.cs:52-67 | the first `AddItem` loop computes `TopUp`: the slots and the units still pending |
| `SlotStore.FillPass` | Assets/Scripts/InventoryUI.cs:69-83 | the second `AddItem` loop computes `Fill` |
| `SlotStore.TopUpCounts` | Assets/Scripts/InventoryUI.cs:52-67 | pass 1 places `pending - left` units, using up that much room in the item's stacks; the empty slots' room is untouched; units are left over only when those stacks are full |
| `SlotStore.TopUpShape` | Assets/Scripts/InventoryUI.cs:52-67 | pass 1 changes only slots holding the item, keeps their item, and keeps every stack within `maxStackSize` |
| `SlotStore.FillCounts` | Assets/Scripts/InventoryUI.cs:69-83 | pass 2 places `pending - left` units, using up that much room; units are left over only when no empty slot remains |
| `SlotStore.FillShape` | Assets/Scripts/InventoryUI.cs:69-83 | pass 2 writes the item only into empty slots, each stack at most `maxStackSize` |
| `SlotStore.Add` | Assets/Scripts/InventoryUI.cs:50 | a null item or an amount <= 0 returns false and changes nothing; the slot count never changes |
| `SlotStore.AddPlacesMinOfAmountAndRoom` | Assets/Scripts/InventoryUI.cs:48-87 | `AddItem` places exactly min(amount, room) units, and returns true exactly when the whole amount fitted |
| `SlotStore.AddUsesRoom` | Assets/Scripts/InventoryUI.cs:48-87 | every unit placed uses one unit of room |
| `SlotStore.AddKeepsSlotsOk` | Assets/Scripts/InventoryUI.cs:54-58 | no stack goes past `maxStackSize`, given `maxStackSize > 0`; empty slots stay (null, 0) |
| `SlotStore.AddTouchesOnlyItemAndEmptySlots` | Assets/Scripts/InventoryUI.cs:54-74 | slots of other items are untouched; an empty slot stays empty or receives the item |
| `SlotStore.AddKeepsOtherCounts` | Assets/Scripts/InventoryUI.cs:48-87 | no other item's total changes |
| `SlotStore.AddFillsEmptySlotsInOrder` | Assets/Scripts/InventoryUI.cs:69-83 | empty slots are filled left to right; no empty slot is skipped for a later one |
| `SlotStore.FillIsFirstFit` | Assets/Scripts/InventoryUI.cs:69-83 | once pass 2 leaves an empty slot empty, every later slot is unchanged |
| `SlotStore.AddScenarioTwoStacks` | Assets/Scripts/InventoryUI.cs:48-87 | 150 units of a 99-stack item into 20 empty slots make stacks of 99 and 51 |
| `SlotStore.AddUnitsPlacesMin` | ResourceTilemapManager.cs:165-176 | adding `n` units one at a time places min(n, room) units and keeps every stack within bounds |
| `SlotStore.OneByOneMatchesBatch` | ResourceTilemapManager.cs:161-176 | one unit at a time places as many units as one `AddItem(item, n)` |
| `SlotStore.Remove` | Assets/Scripts/InventoryUI.cs:91 | a null item or an amount <= 0 returns false and changes nothing; the slot count never changes |
| `SlotStore.RemoveScanFacts` | Assets/Scripts/InventoryUI.cs:93-119 | the scan succeeds exactly when enough units are held; success takes exactly `amount`; failure leaves none of the item; other items' slots stay |
| `SlotStore.RemoveSucceedsIffEnough` | Assets/Scripts/InventoryUI.cs:89-120 | `RemoveItem` returns true exactly when the held total is at least `amount`; the total drops by `amount` on success and to 0 on failure |
| `SlotStore.RemoveKeepsSlotsOk` | Assets/Scripts/InventoryUI.cs:97-110 | removal keeps every slot well formed; a slot that reaches 0 becomes (null, 0) |
| `SlotStore.RemoveTouchesOnlyItemSlots` | Assets/Scripts/InventoryUI.cs:93-117 | slots not holding the item are untouched |
| `SlotStore.RemoveIsNotAllOrNothing` | Assets/Scripts/InventoryUI.cs:106-119 | asking for 5 units when 3 are held returns false and the 3 units are gone |
| `SlotStore.Adjust` | Assets/Scripts/InventoryUI.cs:174-176 | the bonus becomes bonus + change, floored at 0 |
| `SlotStore.ShrinkRemovesTrailingEmpties` | Assets/Scripts/InventoryUI.cs:185-196 | a shrink removes only empty slots, the last ones: as many as asked for, or all there are |
| `SlotStore.ShrinkKeepsOccupied` | Assets/Scripts/InventoryUI.cs:185-196 | occupied slots keep their contents and order; the length drops by min(asked, empty slots) |
| `SlotStore.AdjustKeepsItems` | Assets/Scripts/InventoryUI.cs:172-198 | `AdjustSlots` keeps every occupied slot in order, and every item's total |
| `SlotStore.AdjustKeepsCapacity` | Assets/Scripts/InventoryUI.cs:178-196 | growth appends exactly the capacity gained; after a shrink at least `maxSlots` slots remain, and more when too few were empty |
| `SlotStore.AdjustKeepsSlotsOk` | Assets/Scripts/InventoryUI.cs:172-198 | `AdjustSlots` keeps every slot well formed |
| `SlotStore.AdjustRoundTrip` | Assets/Scripts/InventoryUI.cs:172-198 | growing by `n` and then shrinking by `n` restores the slots and the bonus |
| `SlotStore.AdjustGrowTwice` | Assets/Scripts/InventoryUI.cs:178-184 | growing by `n` twice is growing by `2n` once |
| `SlotStore.Clear` | Assets/Scripts/InventoryUI.cs:136-144 | clearing keeps the number of slots |
| `SlotStore.ClearEmptiesAll` | Assets/Scripts/InventoryUI.cs:136-144 | afterwards no slot holds an item, every item's total is 0, and every slot is well formed |
| `PlayerState.Inventory.constructor` | Assets/Scripts/InventoryUI.cs:10-30 | `Awake` creates `baseSlotCount` empty slots with no bonus, and the store is well formed |
| `PlayerState.Inventory.AddItem` | Assets/Scripts/InventoryUI.cs:48-87 | new slots and result are `Add` of the old slots; the event fires unless the guard returns; the store stays well formed |
| `PlayerState.Inventory.RemoveItem` | Assets/Scripts/InventoryUI.cs:89-120 | new slots and result are `Remove` of the old slots; the store stays well formed |
| `PlayerState.Inventory.HasItem` | Assets/Scripts/InventoryUI.cs:121-135 | true exactly when the item is found and its total across the slots is at least `amount` |
| `PlayerState.Inventory.ClearInventory` | Assets/Scripts/InventoryUI.cs:136-144 | every slot becomes (null, 0); the count and the bonus stay; the event fires once |
| `PlayerState.Inventory.AdjustSlots` | Assets/Scripts/InventoryUI.cs:172-198 | new slots and bonus are `Adjust` of the old ones; the store stays well formed |
| `PlayerState.Inventory.UseItem` | Assets/Scripts/InventoryUI.cs:146-170 | an invalid slot or a missing player changes nothing; otherwise the player uses the item and the slots follow `InventoryAfterUse`; a valid store stays valid |
| `PlayerState.UsingBackpackGrowsTwice` | Assets/Scripts/InventoryUI.cs:160-163 | a utility backpack with bonus `n` grows a living player's store by `2n` (once in `EquipArmor`, once in `UseItem`) and a dead player's by `n` |
| `PlayerState.UsingConsumableRemovesOne` | Assets/Scripts/InventoryUI.cs:164-167 | using a non-equipment item removes exactly one unit, keeps the capacity, and works even for a dead player |
| `PlayerState.UsingEquipmentKeepsIt` | Assets/Scripts/InventoryUI.cs:156-168 | tools, weapons and non-backpack armor stay in the slot when equipped |
| `Stats.Full` | Assets/Scripts/PlayerStatus.cs:67-75 | every stat at the cap is within range |
| `Stats.AfterDamageClamps` | Assets/Scripts/PlayerStatus.cs:101-107 | damage stays within [0, maxValue], never raises health and touches only health |
| `Stats.EnoughDamageIsLethal` | Assets/Scripts/PlayerStatus.cs:104-106 | damage of at least the current health triggers death |
| `Stats.AfterAttackClamps` | Assets/Scripts/PlayerStatus.cs:335-341 | an attack lowers fatigue, hunger and thirst by their costs, floored at 0, and leaves health alone |
| `Stats.AfterUseClamps` | Assets/Scripts/PlayerStatus.cs:221-233 | using an item keeps stats within [0, maxValue], never lowers one, and never changes fatigue |
| `Stats.AfterUseByType` | Assets/Scripts/PlayerStatus.cs:225-244 | only potions and food change stats; food changes only hunger and a potion never changes it |
| `Stats.PotionFallsBackToDefault` | Assets/Scripts/PlayerStatus.cs:221 | a potion without its own health recovery restores the configured default, capped |
| `Stats.DefaultConfigOk` | Assets/Scripts/PlayerStatus.cs:16-35 | the shipped tuning values are non-negative |
| `Equipment.SetGear` | Assets/Scripts/PlayerStatus.cs:276-292 | setting one gear slot changes that slot only |
| `Equipment.GearSlotOfIsFirstMatch` | Assets/Scripts/PlayerStatus.cs:272-298 | the armor slot chosen is the first keyword in the lower-cased name; no slot is chosen exactly when no keyword occurs |
| `Equipment.GearSlotOfIgnoresCase` | Assets/Scripts/PlayerStatus.cs:274 | the classification does not depend on letter case |
| `Equipment.ShatteredBackpackIsAHat` | Assets/Scripts/PlayerStatus.cs:288-292 | "Shattered Backpack" contains "hat" and is worn as a hat |
| `Equipment.EquipWeaponPlacesItem` | Assets/Scripts/PlayerStatus.cs:249-270 | the three branches: fill weapon1 and activate it; else fill weapon2 and activate it only if none was active; else overwrite weapon1 and activate it; gear untouched |
| `Equipment.EquipWeaponDiscardsOldWeapon1` | Assets/Scripts/PlayerStatus.cs:263-268 | with both slots full, the old weapon1 leaves the board and is not handed back |
| `Equipment.SwitchWeaponOnlyToOccupiedSlot` | Assets/Scripts/PlayerStatus.cs:109-120 | only the pointer changes, and only to an occupied slot 1 or 2; other requests change nothing |
| `Equipment.ReduceDurabilityIgnoresUnequipped` | Assets/Scripts/PlayerStatus.cs:303-333 | a null weapon, or one in neither slot, changes nothing |
| `Equipment.ReduceDurabilityOnWeapon1` | Assets/Scripts/PlayerStatus.cs:305-317 | weapon1 wins when both slots hold the item; at <= 0 the slot clears, one unit is removed and an active weapon1 fails over to weapon2 |
| `Equipment.ReduceDurabilityOnWeapon2` | Assets/Scripts/PlayerStatus.cs:319-331 | the same for weapon2, failing over to weapon1 |
| `Equipment.ReduceDurabilityKeepsActiveEquipped` | Assets/Scripts/PlayerStatus.cs:301-333 | wear keeps the pointer on none, weapon1 or weapon2 |
| `Equipment.UnequipWeaponClearsSlot` | Assets/Scripts/PlayerStatus.cs:357-385 | an empty weapon slot is a no-op; an occupied one is handed back, cleared and its counter zeroed |
| `Equipment.UnequipWeapon1LeavesStaleActive` | Assets/Scripts/PlayerStatus.cs:365-367 | unequipping the active weapon1 leaves the pointer on the removed item |
| `Equipment.UnequipWeapon2LeavesStaleActive` | Assets/Scripts/PlayerStatus.cs:380-382 | the same for weapon2 |
| `Equipment.UnequipWeapon1Counterexample` | Assets/Scripts/PlayerStatus.cs:365-367 | a concrete board on which the pointer is left on a removed sword |
| `Equipment.UnequipIntendedKeepsActiveEquipped` | Assets/Scripts/PlayerStatus.cs:365-367 | comparing before clearing keeps the pointer well formed and off the removed item |
| `Equipment.UnequipIntendedDiffersOnlyInActive` | Assets/Scripts/PlayerStatus.cs:357-385 | the corrected and as-written unequip differ only in the active pointer |
| `Equipment.EquipArmorFillsOneGearSlot` | Assets/Scripts/PlayerStatus.cs:272-298 | armor fills exactly the classified gear slot; weapons are untouched; an unrecognised name changes nothing |
| `Equipment.UnequipGearClearsSlot` | Assets/Scripts/PlayerStatus.cs:387-458 | a gear unequip hands back the slot's item and clears only that slot |
| `Equipment.EquipThenUnequipGear` | Assets/Scripts/PlayerStatus.cs:272-298 | equipping armor and then unequipping its slot hands the armor back and empties the slot |
| `Equipment.EmptyBoardHandsNothingBack` | Assets/Scripts/PlayerStatus.cs:192-202 | after a respawn every reference is null and both counters are 0; unequipping any gear slot or either weapon slot hands nothing back and changes nothing; switching weapons and wear leave the board alone; the active pointer is valid |
| `Equipment.BoardAfterUseKeepsActiveEquipped` | Assets/Scripts/PlayerStatus.cs:225-244 | consumables leave the board alone; using any item keeps the pointer well formed |
| `PlayerState.PlayerStatus.constructor` | Assets/Scripts/PlayerStatus.cs:67-75 | `Start` sets every stat to the cap and makes weapon1 active; the inspector equipment is kept with both counters at 0 |
| `PlayerState.PlayerStatus.TakeDamage` | Assets/Scripts/PlayerStatus.cs:101-107 | no-op when dead; otherwise health follows `AfterDamage`; a lethal hit leaves the player dead with the damaged stats, or, on the base map, respawned at once (`Reset`); a non-lethal hit changes nothing else; stats stay in range |
| `PlayerState.PlayerStatus.CheckStatus` | Assets/Scripts/PlayerStatus.cs:135-145 | a living player with health, hunger or thirst at 0 or below goes through `Died`; otherwise nothing changes |
| `PlayerState.PlayerStatus.Die` | Assets/Scripts/PlayerStatus.cs:147-204 | no-op when already dead; off the base map the player is dead and nothing else changes (the coroutine waits for the scene load); on the base map the coroutine never waits, so the whole `Respawn` reset happens inside `Die` |
| `PlayerState.PlayerStatus.SwitchWeapon` | Assets/Scripts/PlayerStatus.cs:109-120 | the board follows `SwitchWeapon`; the event is always raised with the active weapon |
| `PlayerState.PlayerStatus.UseItem` | Assets/Scripts/PlayerStatus.cs:214-247 | null item or dead player: no-op; otherwise stats follow `AfterUse`, the board follows `BoardAfterUse`, and a backpack grows the inventory |
| `PlayerState.PlayerStatus.EquipWeapon` | Assets/Scripts/PlayerStatus.cs:249-270 | the board follows `Equipment.EquipWeapon`; the event is raised with the new active weapon |
| `PlayerState.PlayerStatus.EquipArmor` | Assets/Scripts/PlayerStatus.cs:272-299 | the board follows `Equipment.EquipArmor`; only a backpack calls `AdjustSlots(+bonus)` |
| `PlayerState.PlayerStatus.ReduceDurability` | Assets/Scripts/PlayerStatus.cs:301-333 | the board follows `Equipment.ReduceDurability`; an exhausted weapon has one unit removed from the inventory and raises the event |
| `PlayerState.PlayerStatus.ConsumeStatsOnAttack` | Assets/Scripts/PlayerStatus.cs:335-341 | stats follow `AfterAttack`, dead or alive, and stay in range |
| `PlayerState.PlayerStatus.ToggleRest` | Assets/Scripts/PlayerStatus.cs:208-212 | resting flips unless the player is dead |
| `PlayerState.PlayerStatus.Respawn` | Assets/Scripts/PlayerStatus.cs:178-204 | full stats, alive and not resting; the inventory is cleared; all equipment and counters reset; the event is raised with null |
| `PlayerState.PlayerStatus.UnequipWeapon1` | Assets/Scripts/PlayerStatus.cs:357-370 | as written: the board follows `Equipment.UnequipWeapon1`, and an occupied slot adds one unit back to the inventory |
| `PlayerState.PlayerStatus.UnequipWeapon2` | Assets/Scripts/PlayerStatus.cs:372-385 | the same for weapon2 |
| `PlayerState.PlayerStatus.UnequipInnerShirt` | Assets/Scripts/PlayerStatus.cs:387-397 | an occupied slot is cleared and one unit is added back; an empty slot is a no-op |
| `PlayerState.PlayerStatus.UnequipOuterShirt` | Assets/Scripts/PlayerStatus.cs:399-409 | as above, for the outer shirt |
| `PlayerState.PlayerStatus.UnequipPants` | Assets/Scripts/PlayerStatus.cs:411-421 | as above, for the pants |
| `PlayerState.PlayerStatus.UnequipShoes` | Assets/Scripts/PlayerStatus.cs:423-433 | as above, for the shoes |
| `PlayerState.PlayerStatus.UnequipHat` | Assets/Scripts/PlayerStatus.cs:435-445 | as above, for the hat |
| `PlayerState.PlayerStatus.UnequipBackpack` | Assets/Scripts/PlayerStatus.cs:447-458 | the backpack is added back first, then the store shrinks by its bonus |
| `ResourceTiles.AllPositionsWithinExactly` | ResourceTilemapManager.cs:53 | `allPositionsWithin` visits exactly the cells inside the bounds |
| `ResourceTiles.TrackedExactly` | ResourceTilemapManager.cs:53-61 | the initial scan tracks exactly the destructible cells visited, each at full health |
| `ResourceTiles.TileKeyInjective` | ResourceTilemapManager.cs:93 | distinct cells have distinct `Tile_x_y_z` keys |
| `ResourceTiles.LoadScanErases` | ResourceTilemapManager.cs:88-104 | the load scan erases a cell exactly when it was visited, destructible and flagged 0; other painted tiles stay as they were |
| `ResourceTiles.LoadScanTracks` | ResourceTilemapManager.cs:88-104 | the load scan tracks a cell exactly when it was visited, destructible and not flagged 0, at full health |
| `ResourceTiles.LoadScanConsistent` | ResourceTilemapManager.cs:88-104 | after the load scan every tracked cell still holds its destructible tile |
| `ResourceTiles.LoadWithoutFlagsIsInitialize` | ResourceTilemapManager.cs:46-104 | with no flag at 0, loading produces the same table as initialising and erases nothing |
| `ResourceTiles.RandomRange` | ResourceTilemapManager.cs:156 | a non-empty integer `Random.Range` draws from [lo, hi) |
| `ResourceTiles.DropAmount` | ResourceTilemapManager.cs:156 | the drop count lies in [minDropAmount, maxDropAmount], both bounds included |
| `ResourceTiles.Singles` | ResourceTilemapManager.cs:165-181 | `n` single-unit pickups of the drop item |
| `ResourceTiles.RemovalKeepsConsistent` | ResourceTilemapManager.cs:122-123 | forgetting a cell in both the table and the tilemap keeps them consistent |
| `ResourceTiles.DamageKeepsConsistent` | ResourceTilemapManager.cs:117-118 | changing a tracked cell's health keeps the table consistent |
| `ResourceTiles.Tilemap.ClearTile` | ResourceTilemapManager.cs:96 | `SetTile(c, null)` erases that cell only |
| `ResourceTiles.ResourceTilemapManager.constructor` | ResourceTilemapManager.cs:8-17 | not initialised, tracking nothing, nothing dropped |
| `ResourceTiles.ResourceTilemapManager.InitializeTilemap` | ResourceTilemapManager.cs:46-64 | tracks exactly the destructible cells within the bounds, each with health `maxHealth`, and is initialised; without a tilemap the table is cleared and the manager stays uninitialised |
| `ResourceTiles.ResourceTilemapManager.LoadTilemapForMapBasic` | ResourceTilemapManager.cs:66-109 | a missing tilemap or prefab, or a non-isometric grid, returns early, uninitialised with the table kept; otherwise flagged cells are erased and the rest tracked |
| `ResourceTiles.ResourceTilemapManager.ScanSaved` | ResourceTilemapManager.cs:84-104 | the scan loop clears the table and leaves the tilemap and the table equal to `LoadScan` of the cells within the bounds |
| `ResourceTiles.ResourceTilemapManager.ScanCell` | ResourceTilemapManager.cs:90-103 | one pass of the loop: the tilemap and the table follow `LoadStep` for that cell |
| `ResourceTiles.ResourceTilemapManager.DropItems` | ResourceTilemapManager.cs:143-182 | nothing for an untracked cell or a null drop item; no prefab: one `AddItem` of the whole count; otherwise one pickup, or one `AddItem(item, 1)`, per unit |
| `ResourceTiles.ResourceTilemapManager.TakeDamage` | ResourceTilemapManager.cs:111-127 | no-op when uninitialised or untracked; otherwise only that cell's health drops by `damage`; at <= 0 it drops its items and leaves the table and the tilemap |
| `ResourceTiles.ResourceTilemapManager.DestroyTile` | ResourceTilemapManager.cs:129-141 | a tracked destructible cell is removed whatever its health, after dropping its items; otherwise nothing changes |
| `ResourceTiles.ResourceTilemapManager.IsPositionEmpty` | ResourceTilemapManager.cs:184-190 | false before initialisation; otherwise true exactly when no tile is painted at the cell |
| `ResourceTiles.ResourceTilemapManager.GetResourceType` | ResourceTilemapManager.cs:192-198 | the painted resource tile's type, or wood when uninitialised or when there is none |

## Left out

- `PlayerStatus.Update`: time-based stat decay, input polling and slider updates are out. They depend on frame time and input.
- `PlayerStatus.Respawn`: only its state reset is modelled. The scene loading, the wait for the new scene and the choice of respawn point are engine coroutine work. Whether the active scene is the base map comes in as the `onBaseMap` parameter of `Die`, `CheckStatus` and `TakeDamage`; off the base map the reset that follows the wait is a separate `Respawn` call.
- `ResourceTiles.ResourceTilemapManager.InitializeTilemap`: without a tilemap the source clears the table and then throws a null-reference exception; the model clears the table and returns, so the exception itself is not modelled.
- Every `UpdateUI` call and every UI widget script is left out. They write to widgets only.
- The `OnInventoryChanged` and `OnWeaponSwitched` events are only counted or logged. Their subscribers are UI.
- `Inventory.Start` is left out. It loads two item assets by path from the engine's resources and adds them.
- `Inventory.GetSlots`, `GetMaxSlots`, `GetGameObjectPath` and `UpdateInventory` are left out. They are copies, accessors or UI forwarding. `MaxSlots` stands for `maxSlots`.
- The `PlayerStatus` getters (`GetWeapon1`, `GetHealth` and the others) are field accessors, read directly in the model.
- `Inventory.HasItem` itself is modelled. The name lookup it starts with (`ItemDatabase.GetItemByName`) is not part of this model: the method receives the item the lookup found, or `None`.
- The `Awake` duplicate check (destroy a second instance) is left out. It is engine lifetime management.
- `ResourceTilemapManager.Start` is left out. It checks the inspector fields and a save file on disk before calling `InitializeTilemap`.
- The tile-template fields (`grassTile` and the others) and their getters are left out. They are inspector wiring.
- `ResourceTilemapManager.IsPositionEmpty` takes a world position; the model takes the cell it maps to, because `WorldToCell` is engine geometry.
- `DropItems` does not model world positions, the random offsets, or spawning and destroying the prefab instance. A pickup is recorded in the `dropped` log.
- `DropItems` throws when `Inventory.instance` is null and the inventory is needed. The model requires an inventory.
- `RandomRange`: `Random.Range` with an empty range returns `lo` in the model. The draw itself is the `roll` parameter.
- C# `int` arithmetic is unbounded in the model: overflow of amounts or counts is not modelled. `float` stats and durability are reals (no rounding).
- `string.ToLower` is modelled on ASCII letters only.
- Items are compared by structural equality. The source compares references; two assets with identical fields would be one item in the model.
- `ResourceTileData` objects are values in the table. This does not change behaviour, because the source never shares one between cells.
- `RemoveItem` re-tests `amount <= 0` after draining a smaller stack. That test cannot succeed, because the stack had fewer units than were pending. The model leaves the branch out.
- `PlayerState.PlayerStatus.UnequipWeapon1` and `UnequipWeapon2` keep the source's behaviour. As a result, the well-formed active pointer (part of `Valid`) is not promised after them; see Findings.
- `PlayerState.UsingEquipmentKeepsIt`: the item is equipped but stays in its slot, so it is held twice until it is unequipped. Unequipping then adds one more unit. The model records this as behaviour, not as a defect.
- `PlayerState.PlayerStatus.UnequipWeapon1` (and the other `Unequip*` methods): when the inventory is full, `AddItem` reports false and the unequipped item is lost. The contract states this through `Add`.

## Findings

| source | as written | input that shows it | evidently intended | confidence | as-written member | corrected member |
|---|---|---|---|---|---|---|
| Assets/Scripts/PlayerStatus.cs:365-367 | weapon1 is cleared before `activeWeapon` is compared with it | weapon1 = sword, weapon2 = bow and active = sword: after `UnequipWeapon1` a sword that is no longer equipped is still active | compare first, so the pointer fails over to weapon2 | not executed | `Equipment.UnequipWeapon1Counterexample` | `Equipment.UnequipIntendedKeepsActiveEquipped` |
| Assets/Scripts/PlayerStatus.cs:380-382 | weapon2 is cleared before `activeWeapon` is compared with it | weapon2 active and different from weapon1: after `UnequipWeapon2` the removed item is still active | compare first, so the pointer fails over to weapon1 | not executed | `Equipment.UnequipWeapon2LeavesStaleActive` | `Equipment.UnequipIntendedKeepsActiveEquipped` |

The corrected functions are `Equipment.UnequipWeapon1Intended` and `Equipment.UnequipWeapon2Intended`. `Equipment.UnequipIntendedDiffersOnlyInActive` shows that they differ from the as-written ones only in the pointer. The class `PlayerStatus` keeps the as-written behaviour, since that is what the game does.
