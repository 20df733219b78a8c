/**
  The equipment board of the player: two weapon slots with their durability counters, the
  active-weapon pointer and six gear slots. `Board` is the value the `PlayerStatus` fields
  hold; the functions here are the board transitions its methods perform, and the lemmas
  state what those transitions guarantee.
 */
module Equipment {
  import opened Wrappers
  import opened Items
  import opened Text

  datatype GearSlot = InnerShirt | OuterShirt | Pants | Shoes | Hat | Backpack

  datatype Board = Board(
    weapon1: Option<Item>,
    weapon2: Option<Item>,
    activeWeapon: Option<Item>,
    durability1: real,
    durability2: real,
    innerShirt: Option<Item>,
    outerShirt: Option<Item>,
    pants: Option<Item>,
    shoes: Option<Item>,
    hat: Option<Item>,
    backpack: Option<Item>)

  /** The board after a respawn: nothing equipped, both counters at 0. */
  const EmptyBoard: Board :=
    Board(None, None, None, 0.0, 0.0, None, None, None, None, None, None)

  /** The active pointer is one of its three states: none, weapon1 or weapon2. */
  predicate ActiveIsEquipped(b: Board) {
    b.activeWeapon == None || b.activeWeapon == b.weapon1 || b.activeWeapon == b.weapon2
  }

  function GearOf(b: Board, g: GearSlot): Option<Item> {
    match g
    case InnerShirt => b.innerShirt
    case OuterShirt => b.outerShirt
    case Pants => b.pants
    case Shoes => b.shoes
    case Hat => b.hat
    case Backpack => b.backpack
  }

  /** The board with gear slot `g` set to `v` and everything else kept. */
  function SetGear(b: Board, g: GearSlot, v: Option<Item>): (r: Board)
    ensures GearOf(r, g) == v
    ensures forall h :: h != g ==> GearOf(r, h) == GearOf(b, h)
    ensures r.weapon1 == b.weapon1 && r.weapon2 == b.weapon2 && r.activeWeapon == b.activeWeapon
    ensures r.durability1 == b.durability1 && r.durability2 == b.durability2
  {
    match g
    case InnerShirt => b.(innerShirt := v)
    case OuterShirt => b.(outerShirt := v)
    case Pants => b.(pants := v)
    case Shoes => b.(shoes := v)
    case Hat => b.(hat := v)
    case Backpack => b.(backpack := v)
  }

  /** The weapon part of two boards agrees (slots, counters and active pointer). */
  predicate SameWeapons(a: Board, b: Board) {
    a.weapon1 == b.weapon1 && a.weapon2 == b.weapon2 && a.activeWeapon == b.activeWeapon
    && a.durability1 == b.durability1 && a.durability2 == b.durability2
  }

  /** The gear part of two boards agrees. */
  predicate SameGear(a: Board, b: Board) {
    forall g :: GearOf(a, g) == GearOf(b, g)
  }

  // ---------------------------------------------------------------------------
  // Armor classification by name
  // ---------------------------------------------------------------------------

  /** The name fragment that selects each gear slot. */
  function Keyword(g: GearSlot): string {
    match g
    case InnerShirt => "inner shirt"
    case OuterShirt => "outer shirt"
    case Pants => "pants"
    case Shoes => "shoes"
    case Hat => "hat"
    case Backpack => "backpack"
  }

  /** The position of each test in the classification order. */
  function Rank(g: GearSlot): nat {
    match g
    case InnerShirt => 0
    case OuterShirt => 1
    case Pants => 2
    case Shoes => 3
    case Hat => 4
    case Backpack => 5
  }

  /** The gear slot `EquipArmor` selects for an item name: the first keyword the lower-cased name contains. */
  function GearSlotOf(itemName: string): Option<GearSlot> {
    var s := ToLower(itemName);
    if Contains(s, "inner shirt") then Some(InnerShirt)
    else if Contains(s, "outer shirt") then Some(OuterShirt)
    else if Contains(s, "pants") then Some(Pants)
    else if Contains(s, "shoes") then Some(Shoes)
    else if Contains(s, "hat") then Some(Hat)
    else if Contains(s, "backpack") then Some(Backpack)
    else None
  }

  /**
    The chosen slot's keyword occurs in the lower-cased name and no keyword tested earlier
    does; no slot is chosen exactly when no keyword occurs.
   */
  lemma GearSlotOfIsFirstMatch(itemName: string)
    ensures var s := ToLower(itemName);
      match GearSlotOf(itemName)
      case Some(g) =>
        Contains(s, Keyword(g)) && forall h :: Rank(h) < Rank(g) ==> !Contains(s, Keyword(h))
      case None => forall h :: !Contains(s, Keyword(h))
  {
  }

  /** The classification does not depend on letter case. */
  lemma GearSlotOfIgnoresCase(itemName: string)
    ensures GearSlotOf(ToLower(itemName)) == GearSlotOf(itemName)
  {
    ToLowerIdempotent(itemName);
  }

  /**
    "hat" is tested before "backpack": an item called "Shattered Backpack" contains "hat"
    and is equipped as a hat.
   */
  lemma ShatteredBackpackIsAHat(itemName: string)
    requires itemName == "Shattered Backpack"
    ensures GearSlotOf(itemName) == Some(Hat)
  {
    LowerShatteredBackpack(itemName);
    ShatteredBackpackKeywords(ToLower(itemName));
  }

  lemma LowerShatteredBackpack(itemName: string)
    requires itemName == "Shattered Backpack"
    ensures ToLower(itemName) == "shattered backpack"
  {
  }

  /** The lower-cased name lacks 'i', 'n' and 'o', so only "hat" and "backpack" can occur in it. */
  lemma ShatteredBackpackKeywords(s: string)
    requires s == "shattered backpack"
    ensures !Contains(s, "inner shirt") && !Contains(s, "outer shirt")
    ensures !Contains(s, "pants") && !Contains(s, "shoes") && Contains(s, "hat")
  {
    assert 'i' !in s && 'o' !in s && 'n' !in s;
    LacksKeyword(s, "inner shirt", 'i');
    LacksKeyword(s, "outer shirt", 'o');
    LacksKeyword(s, "pants", 'n');
    LacksKeyword(s, "shoes", 'o');
    HasHat(s);
  }

  lemma LacksKeyword(s: string, keyword: string, c: char)
    requires c !in s && c in keyword
    ensures !Contains(s, keyword)
  {
    NotContainsMissingChar(s, keyword, c);
  }

  lemma HasHat(s: string)
    requires s == "shattered backpack"
    ensures Contains(s, "hat")
  {
    assert s[1] == 'h' && s[2] == 'a' && s[3] == 't';
    assert s[1..4] == "hat";
    ContainsAt(s, "hat", 1);
  }

  // ---------------------------------------------------------------------------
  // Board transitions
  // ---------------------------------------------------------------------------

  /** `EquipWeapon`: fill weapon1, else weapon2, else overwrite weapon1. */
  function EquipWeapon(b: Board, it: Item): Board {
    if b.weapon1 == None then
      b.(weapon1 := Some(it), durability1 := it.GetMaxDurability(), activeWeapon := Some(it))
    else if b.weapon2 == None then
      b.(weapon2 := Some(it), durability2 := it.GetMaxDurability(),
         activeWeapon := if b.activeWeapon == None then Some(it) else b.activeWeapon)
    else
      b.(weapon1 := Some(it), durability1 := it.GetMaxDurability(), activeWeapon := Some(it))
  }

  lemma EquipWeaponPlacesItem(b: Board, it: Item)
    ensures var r := EquipWeapon(b, it);
      // the item lands in weapon1 when it is free or when both are taken, else in weapon2
      && (b.weapon1 == None || b.weapon2 != None ==>
            r.weapon1 == Some(it) && r.durability1 == it.GetMaxDurability()
            && r.weapon2 == b.weapon2 && r.durability2 == b.durability2 && r.activeWeapon == Some(it))
      && (b.weapon1 != None && b.weapon2 == None ==>
            r.weapon2 == Some(it) && r.durability2 == it.GetMaxDurability()
            && r.weapon1 == b.weapon1 && r.durability1 == b.durability1
            && r.activeWeapon == (if b.activeWeapon == None then Some(it) else b.activeWeapon))
      && SameGear(r, b)
      && (ActiveIsEquipped(b) ==> ActiveIsEquipped(r))
  {
  }

  /** With both slots taken, the old weapon1 is dropped from the board (it is not handed back). */
  lemma EquipWeaponDiscardsOldWeapon1(b: Board, it: Item)
    requires b.weapon1.Some? && b.weapon2.Some?
    requires b.weapon1 != b.weapon2 && b.weapon1 != Some(it)
    ensures var r := EquipWeapon(b, it);
      r.weapon1 != b.weapon1 && r.weapon2 != b.weapon1 && r.activeWeapon != b.weapon1
  {
  }

  /** `SwitchWeapon(slot)`: point at an occupied slot 1 or 2, else keep the pointer. */
  function SwitchWeapon(b: Board, slot: int): Board {
    if slot == 1 && b.weapon1 != None then b.(activeWeapon := b.weapon1)
    else if slot == 2 && b.weapon2 != None then b.(activeWeapon := b.weapon2)
    else b
  }

  lemma SwitchWeaponOnlyToOccupiedSlot(b: Board, slot: int)
    ensures var r := SwitchWeapon(b, slot);
      && r == b.(activeWeapon := r.activeWeapon)
      && (r.activeWeapon != b.activeWeapon ==>
            r.activeWeapon.Some?
            && ((slot == 1 && r.activeWeapon == b.weapon1) || (slot == 2 && r.activeWeapon == b.weapon2)))
      && (slot != 1 && slot != 2 ==> r == b)
      && (ActiveIsEquipped(b) ==> ActiveIsEquipped(r))
  {
  }

  /**
    `ReduceDurability(weapon)`: the new board and whether one unit of `weapon` is to be
    removed from the inventory (the counter of its slot reached 0).
   */
  function ReduceDurability(b: Board, weapon: Option<Item>): (Board, bool) {
    if weapon == None then (b, false)
    else if weapon == b.weapon1 then
      var d := b.durability1 - weapon.value.GetDurabilityPerUse();
      if d <= 0.0 then
        (b.(durability1 := d, weapon1 := None,
            activeWeapon := if b.activeWeapon == weapon then b.weapon2 else b.activeWeapon), true)
      else (b.(durability1 := d), false)
    else if weapon == b.weapon2 then
      var d := b.durability2 - weapon.value.GetDurabilityPerUse();
      if d <= 0.0 then
        (b.(durability2 := d, weapon2 := None,
            activeWeapon := if b.activeWeapon == weapon then b.weapon1 else b.activeWeapon), true)
      else (b.(durability2 := d), false)
    else (b, false)
  }

  /** A weapon in neither slot (or none at all) leaves everything as it is. */
  lemma ReduceDurabilityIgnoresUnequipped(b: Board, weapon: Option<Item>)
    requires weapon == None || (weapon != b.weapon1 && weapon != b.weapon2)
    ensures ReduceDurability(b, weapon) == (b, false)
  {
  }

  /**
    Wear on weapon1 (which wins when both slots hold the item): its counter drops by the
    per-use cost; at 0 or below the slot is cleared, one unit is to be removed from the
    inventory and an active weapon1 fails over to weapon2. Weapon2 and the gear are untouched.
   */
  lemma ReduceDurabilityOnWeapon1(b: Board, it: Item)
    requires b.weapon1 == Some(it)
    ensures var (r, removed) := ReduceDurability(b, Some(it));
      && r.durability1 == b.durability1 - it.GetDurabilityPerUse()
      && r.weapon2 == b.weapon2 && r.durability2 == b.durability2 && SameGear(r, b)
      && (removed <==> r.durability1 <= 0.0)
      && (removed ==>
            r.weapon1 == None
            && r.activeWeapon == (if b.activeWeapon == Some(it) then b.weapon2 else b.activeWeapon))
      && (!removed ==> r.weapon1 == b.weapon1 && r.activeWeapon == b.activeWeapon)
  {
  }

  /** The same for weapon2, when weapon1 holds something else. */
  lemma ReduceDurabilityOnWeapon2(b: Board, it: Item)
    requires b.weapon2 == Some(it) && b.weapon1 != Some(it)
    ensures var (r, removed) := ReduceDurability(b, Some(it));
      && r.durability2 == b.durability2 - it.GetDurabilityPerUse()
      && r.weapon1 == b.weapon1 && r.durability1 == b.durability1 && SameGear(r, b)
      && (removed <==> r.durability2 <= 0.0)
      && (removed ==>
            r.weapon2 == None
            && r.activeWeapon == (if b.activeWeapon == Some(it) then b.weapon1 else b.activeWeapon))
      && (!removed ==> r.weapon2 == b.weapon2 && r.activeWeapon == b.activeWeapon)
  {
  }

  lemma ReduceDurabilityKeepsActiveEquipped(b: Board, weapon: Option<Item>)
    requires ActiveIsEquipped(b)
    ensures ActiveIsEquipped(ReduceDurability(b, weapon).0)
  {
  }

  /**
    `UnequipWeapon1` as written: the slot is cleared BEFORE the active pointer is compared
    with it, so the comparison is against an empty slot. Also returns the item to hand back
    to the inventory.
   */
  function UnequipWeapon1(b: Board): (Board, Option<Item>) {
    if b.weapon1 == None then (b, None)
    else
      var cleared := b.(weapon1 := None, durability1 := 0.0);
      (cleared.(activeWeapon := if cleared.activeWeapon == cleared.weapon1 then cleared.weapon2
                                else cleared.activeWeapon), b.weapon1)
  }

  /** `UnequipWeapon2` as written, symmetric to `UnequipWeapon1`. */
  function UnequipWeapon2(b: Board): (Board, Option<Item>) {
    if b.weapon2 == None then (b, None)
    else
      var cleared := b.(weapon2 := None, durability2 := 0.0);
      (cleared.(activeWeapon := if cleared.activeWeapon == cleared.weapon2 then cleared.weapon1
                                else cleared.activeWeapon), b.weapon2)
  }

  /** An empty weapon slot unequips to nothing; an occupied one is cleared, zeroed and handed back. */
  lemma UnequipWeaponClearsSlot(b: Board)
    ensures var (r1, back1) := UnequipWeapon1(b);
      && (b.weapon1 == None ==> r1 == b && back1 == None)
      && (b.weapon1 != None ==>
            back1 == b.weapon1 && r1.weapon1 == None && r1.durability1 == 0.0
            && r1.weapon2 == b.weapon2 && r1.durability2 == b.durability2 && SameGear(r1, b))
    ensures var (r2, back2) := UnequipWeapon2(b);
      && (b.weapon2 == None ==> r2 == b && back2 == None)
      && (b.weapon2 != None ==>
            back2 == b.weapon2 && r2.weapon2 == None && r2.durability2 == 0.0
            && r2.weapon1 == b.weapon1 && r2.durability1 == b.durability1 && SameGear(r2, b))
  {
  }

  /**
    As written, unequipping the active weapon1 (with a different weapon2) leaves the active
    pointer on the item just taken off; failover to weapon2 happens only when nothing was active.
   */
  lemma UnequipWeapon1LeavesStaleActive(b: Board)
    requires b.weapon1.Some? && b.activeWeapon == b.weapon1 && b.weapon2 != b.weapon1
    ensures ActiveIsEquipped(b)
    ensures UnequipWeapon1(b).0.activeWeapon == b.weapon1
    ensures !ActiveIsEquipped(UnequipWeapon1(b).0)
  {
  }

  lemma UnequipWeapon2LeavesStaleActive(b: Board)
    requires b.weapon2.Some? && b.activeWeapon == b.weapon2 && b.weapon1 != b.weapon2
    ensures ActiveIsEquipped(b)
    ensures UnequipWeapon2(b).0.activeWeapon == b.weapon2
    ensures !ActiveIsEquipped(UnequipWeapon2(b).0)
  {
  }

  /** A concrete board on which the as-written `UnequipWeapon1` breaks the active pointer. */
  lemma UnequipWeapon1Counterexample(sword: Item, bow: Item)
    requires sword != bow
    ensures var b := EmptyBoard.(weapon1 := Some(sword), weapon2 := Some(bow), activeWeapon := Some(sword));
      UnequipWeapon1(b).0.activeWeapon == Some(sword) && UnequipWeapon1(b).0.weapon1 == None
  {
  }

  /** The evidently intended `UnequipWeapon1`: compare the pointer with the slot before clearing it. */
  function UnequipWeapon1Intended(b: Board): (Board, Option<Item>) {
    if b.weapon1 == None then (b, None)
    else
      (b.(weapon1 := None, durability1 := 0.0,
          activeWeapon := if b.activeWeapon == b.weapon1 then b.weapon2 else b.activeWeapon), b.weapon1)
  }

  /** The evidently intended `UnequipWeapon2`. */
  function UnequipWeapon2Intended(b: Board): (Board, Option<Item>) {
    if b.weapon2 == None then (b, None)
    else
      (b.(weapon2 := None, durability2 := 0.0,
          activeWeapon := if b.activeWeapon == b.weapon2 then b.weapon1 else b.activeWeapon), b.weapon2)
  }

  /** The intended versions keep the pointer on an equipped slot (or none) and never on the removed item. */
  lemma UnequipIntendedKeepsActiveEquipped(b: Board)
    requires ActiveIsEquipped(b)
    ensures ActiveIsEquipped(UnequipWeapon1Intended(b).0)
    ensures ActiveIsEquipped(UnequipWeapon2Intended(b).0)
    ensures b.weapon1 != b.weapon2 && b.weapon1.Some? ==> UnequipWeapon1Intended(b).0.activeWeapon != b.weapon1
    ensures b.weapon1 != b.weapon2 && b.weapon2.Some? ==> UnequipWeapon2Intended(b).0.activeWeapon != b.weapon2
  {
  }

  /** The intended and the written versions differ only in the active pointer. */
  lemma UnequipIntendedDiffersOnlyInActive(b: Board)
    ensures UnequipWeapon1Intended(b).0 == UnequipWeapon1(b).0.(activeWeapon := UnequipWeapon1Intended(b).0.activeWeapon)
    ensures UnequipWeapon1Intended(b).1 == UnequipWeapon1(b).1
    ensures UnequipWeapon2Intended(b).0 == UnequipWeapon2(b).0.(activeWeapon := UnequipWeapon2Intended(b).0.activeWeapon)
    ensures UnequipWeapon2Intended(b).1 == UnequipWeapon2(b).1
  {
  }

  /** `EquipArmor`'s board effect: the classified gear slot takes the item; unclassified names change nothing. */
  function EquipArmor(b: Board, it: Item): Board {
    match GearSlotOf(it.itemName)
    case None => b
    case Some(g) => SetGear(b, g, Some(it))
  }

  lemma EquipArmorFillsOneGearSlot(b: Board, it: Item)
    ensures var r := EquipArmor(b, it);
      && SameWeapons(r, b)
      && (GearSlotOf(it.itemName) == None ==> r == b)
      && (forall g :: GearOf(r, g) == (if GearSlotOf(it.itemName) == Some(g) then Some(it) else GearOf(b, g)))
  {
  }

  /** The shared shape of the six gear `Unequip*` methods: clear an occupied slot and hand its item back. */
  function UnequipGear(b: Board, g: GearSlot): (Board, Option<Item>) {
    if GearOf(b, g) == None then (b, None)
    else (SetGear(b, g, None), GearOf(b, g))
  }

  lemma UnequipGearClearsSlot(b: Board, g: GearSlot)
    ensures var (r, back) := UnequipGear(b, g);
      && back == GearOf(b, g)
      && GearOf(r, g) == None
      && SameWeapons(r, b)
      && (forall h :: h != g ==> GearOf(r, h) == GearOf(b, h))
      && (ActiveIsEquipped(b) ==> ActiveIsEquipped(r))
  {
  }

  /** Equipping a classified armor and unequipping its slot leaves that slot empty and hands the armor back. */
  lemma EquipThenUnequipGear(b: Board, it: Item, g: GearSlot)
    requires GearSlotOf(it.itemName) == Some(g)
    ensures UnequipGear(EquipArmor(b, it), g) == (SetGear(b, g, None), Some(it))
  {
    var e := EquipArmor(b, it);
    assert GearOf(e, g) == Some(it);
    var r := SetGear(e, g, None);
    assert forall h :: GearOf(r, h) == GearOf(SetGear(b, g, None), h);
    BoardGearExtensional(r, SetGear(b, g, None));
  }

  /** Two boards with the same weapons and the same gear are equal. */
  lemma BoardGearExtensional(a: Board, b: Board)
    requires SameWeapons(a, b) && SameGear(a, b)
    ensures a == b
  {
    assert GearOf(a, InnerShirt) == GearOf(b, InnerShirt);
    assert GearOf(a, OuterShirt) == GearOf(b, OuterShirt);
    assert GearOf(a, Pants) == GearOf(b, Pants);
    assert GearOf(a, Shoes) == GearOf(b, Shoes);
    assert GearOf(a, Hat) == GearOf(b, Hat);
    assert GearOf(a, Backpack) == GearOf(b, Backpack);
  }

  /**
    After a respawn every reference is null and both counters are zero, so the reset
    board hands nothing back, switching and wear leave it alone, and the pointer is valid.
   */
  lemma EmptyBoardHandsNothingBack()
    ensures EmptyBoard.durability1 == 0.0 && EmptyBoard.durability2 == 0.0
    ensures forall g :: GearOf(EmptyBoard, g) == None && UnequipGear(EmptyBoard, g) == (EmptyBoard, None)
    ensures UnequipWeapon1(EmptyBoard) == (EmptyBoard, None) && UnequipWeapon2(EmptyBoard) == (EmptyBoard, None)
    ensures forall slot :: SwitchWeapon(EmptyBoard, slot) == EmptyBoard
    ensures forall w :: ReduceDurability(EmptyBoard, w) == (EmptyBoard, false)
    ensures ActiveIsEquipped(EmptyBoard)
  {
  }

  /** The board part of `UseItem`: tools and weapons are equipped as weapons, armor and utility items as gear. */
  function BoardAfterUse(b: Board, it: Item): Board {
    match it.itemType
    case Tool => EquipWeapon(b, it)
    case Weapon => EquipWeapon(b, it)
    case Armor => EquipArmor(b, it)
    case Utility => EquipArmor(b, it)
    case _ => b
  }

  /** Equipping `it` through `UseItem` takes the backpack branch of `EquipArmor`, which grows the inventory. */
  predicate EquipGrowsInventory(it: Item) {
    (it.itemType == Armor || it.itemType == Utility) && GearSlotOf(it.itemName) == Some(Backpack)
  }

  /** Consumables and resources leave the board alone; using an item keeps the active pointer well formed. */
  lemma BoardAfterUseKeepsActiveEquipped(b: Board, it: Item)
    ensures !it.IsToolOrWeapon() && it.itemType != Armor && it.itemType != Utility ==> BoardAfterUse(b, it) == b
    ensures !it.IsToolOrWeapon() ==> SameWeapons(BoardAfterUse(b, it), b)
    ensures ActiveIsEquipped(b) ==> ActiveIsEquipped(BoardAfterUse(b, it))
  {
    EquipWeaponPlacesItem(b, it);
    EquipArmorFillsOneGearSlot(b, it);
  }
}
