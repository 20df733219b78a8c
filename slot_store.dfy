/**
  The inventory's slot list as a value: the slot record, the two-pass first-fit stack
  allocator behind `AddItem`, the left-to-right drain behind `RemoveItem`, and the
  capacity change behind `AdjustSlots`. Each function follows the loop it specifies
  slot by slot; the class `PlayerState.Inventory` runs those loops in place and is
  proved to agree with these functions. The lemmas state what the functions guarantee.
 */
module SlotStore {
  import opened Wrappers
  import opened Items

  /** One inventory cell: an item reference (null when empty) and a unit count. */
  datatype Slot = Slot(item: Option<Item>, amount: int)

  /** What `new InventorySlot()` creates and what clearing a slot writes. */
  const EmptySlot: Slot := Slot(None, 0)

  /** The slot invariant: empty means (null, 0), occupied means a count in [1, maxStackSize]. */
  predicate SlotOk(sl: Slot) {
    match sl.item
    case None => sl.amount == 0
    case Some(it) => 0 < sl.amount <= it.maxStackSize
  }

  predicate AllOk(s: seq<Slot>) {
    forall j :: 0 <= j < |s| ==> SlotOk(s[j])
  }

  /** Every slot holding `it` has a non-negative count (weaker than `AllOk`). */
  predicate NonNegative(s: seq<Slot>, it: Item) {
    forall j :: 0 <= j < |s| && s[j].item == Some(it) ==> s[j].amount >= 0
  }

  function Empties(n: nat): (r: seq<Slot>)
    ensures |r| == n
    ensures forall j :: 0 <= j < n ==> r[j] == EmptySlot
  {
    seq(n, _ => EmptySlot)
  }

  // ---------------------------------------------------------------------------
  // Sequence steps of the slot loops
  // ---------------------------------------------------------------------------

  /** Writing slot `i` splits the list around it. */
  lemma UpdateSplit(s: seq<Slot>, i: int, x: Slot)
    requires 0 <= i < |s|
    ensures s[i := x] == s[..i] + ([x] + s[i + 1..])
  {
  }

  /** After writing slot `i`, the prefix up to and including `i` followed by `rest`. */
  lemma UpdatePrefix(s: seq<Slot>, i: int, x: Slot, rest: seq<Slot>)
    requires 0 <= i < |s|
    ensures s[i := x][..i + 1] + rest == s[..i] + ([x] + rest)
    ensures s[i := x][i + 1..] == s[i + 1..]
  {
    assert s[i := x][..i + 1] == s[..i] + [x];
  }

  // ---------------------------------------------------------------------------
  // Measures
  // ---------------------------------------------------------------------------

  /** Units of `it` held across the slots. */
  function Count(s: seq<Slot>, it: Item): int {
    if s == [] then 0
    else (if s[0].item == Some(it) then s[0].amount else 0) + Count(s[1..], it)
  }

  /** How many more units of `it` the slots already holding it can take. */
  function TopRoom(s: seq<Slot>, it: Item): int {
    if s == [] then 0
    else (if s[0].item == Some(it) && s[0].amount < it.maxStackSize then it.maxStackSize - s[0].amount else 0)
         + TopRoom(s[1..], it)
  }

  /** How many units of `it` the empty slots can take. */
  function FreeRoom(s: seq<Slot>, it: Item): int {
    if s == [] then 0
    else (if s[0].item == None then it.maxStackSize else 0) + FreeRoom(s[1..], it)
  }

  /** Total room for `it`: what a single `AddItem` call can place at most. */
  function Room(s: seq<Slot>, it: Item): int {
    TopRoom(s, it) + FreeRoom(s, it)
  }

  /** The occupied slots in order (back to front, the order the shrink loop scans in). */
  function Occupied(s: seq<Slot>): seq<Slot> {
    if s == [] then []
    else Occupied(s[..|s| - 1]) + (if s[|s| - 1].item.Some? then [s[|s| - 1]] else [])
  }

  /** The number of slots whose item is null. */
  function EmptyCount(s: seq<Slot>): nat {
    if s == [] then 0
    else EmptyCount(s[..|s| - 1]) + (if s[|s| - 1].item.None? then 1 else 0)
  }

  // ---------------------------------------------------------------------------
  // AddItem
  // ---------------------------------------------------------------------------

  /**
    Pass 1 of `AddItem` over the slots not yet visited, with `pending` units still to
    place: a slot already holding `it` below its stack limit is topped up by
    min(pending, maxStackSize - amount); the pass stops as soon as nothing is pending.
    Returns the new slots and what is still pending.
   */
  function TopUp(s: seq<Slot>, it: Item, pending: int): (r: (seq<Slot>, int))
    ensures |r.0| == |s|
  {
    if s == [] then ([], pending)
    else if s[0].item == Some(it) && s[0].amount < it.maxStackSize then
      var added := Min(pending, it.maxStackSize - s[0].amount);
      var h := Slot(s[0].item, s[0].amount + added);
      var left := pending - added;
      if left <= 0 then ([h] + s[1..], left)
      else var t := TopUp(s[1..], it, left); ([h] + t.0, t.1)
    else
      var t := TopUp(s[1..], it, pending); ([s[0]] + t.0, t.1)
  }

  /**
    Pass 2 of `AddItem`: every empty slot met gets `it` with min(pending, maxStackSize)
    units; the pass stops as soon as nothing is pending.
   */
  function Fill(s: seq<Slot>, it: Item, pending: int): (r: (seq<Slot>, int))
    ensures |r.0| == |s|
  {
    if s == [] then ([], pending)
    else if s[0].item == None then
      var h := Slot(Some(it), Min(pending, it.maxStackSize));
      var left := pending - h.amount;
      if left <= 0 then ([h] + s[1..], left)
      else var t := Fill(s[1..], it, left); ([h] + t.0, t.1)
    else
      var t := Fill(s[1..], it, pending); ([s[0]] + t.0, t.1)
  }

  /** Pass 1 at index `i`, in terms of the slot there and the pass over the rest. */
  lemma TopUpAt(s: seq<Slot>, i: int, it: Item, pending: int)
    requires 0 <= i < |s|
    ensures var added := Min(pending, it.maxStackSize - s[i].amount);
      TopUp(s[i..], it, pending) ==
      if s[i].item == Some(it) && s[i].amount < it.maxStackSize then
        if pending - added <= 0 then ([Slot(s[i].item, s[i].amount + added)] + s[i + 1..], pending - added)
        else ([Slot(s[i].item, s[i].amount + added)] + TopUp(s[i + 1..], it, pending - added).0,
              TopUp(s[i + 1..], it, pending - added).1)
      else ([s[i]] + TopUp(s[i + 1..], it, pending).0, TopUp(s[i + 1..], it, pending).1)
  {
    assert s[i..][0] == s[i] && s[i..][1..] == s[i + 1..];
  }

  /** Pass 2 at index `i`, in terms of the slot there and the pass over the rest. */
  lemma FillAt(s: seq<Slot>, i: int, it: Item, pending: int)
    requires 0 <= i < |s|
    ensures var placed := Min(pending, it.maxStackSize);
      Fill(s[i..], it, pending) ==
      if s[i].item == None then
        if pending - placed <= 0 then ([Slot(Some(it), placed)] + s[i + 1..], pending - placed)
        else ([Slot(Some(it), placed)] + Fill(s[i + 1..], it, pending - placed).0,
              Fill(s[i + 1..], it, pending - placed).1)
      else ([s[i]] + Fill(s[i + 1..], it, pending).0, Fill(s[i + 1..], it, pending).1)
  {
    assert s[i..][0] == s[i] && s[i..][1..] == s[i + 1..];
  }

  /**
    The invariant of the pass-1 loop at index `i`: the slots before `i` are final, those
    from `i` on are untouched, and `pending` is what the pass still has to place.
   */
  ghost predicate TopUpFrom(s0: seq<Slot>, s: seq<Slot>, i: int, it: Item, amount: int, pending: int) {
    && 0 <= i <= |s| == |s0| && s[i..] == s0[i..]
    && TopUp(s0, it, amount).0 == s[..i] + TopUp(s0[i..], it, pending).0
    && TopUp(s0, it, amount).1 == TopUp(s0[i..], it, pending).1
  }

  lemma TopUpStart(s0: seq<Slot>, it: Item, amount: int)
    ensures TopUpFrom(s0, s0, 0, it, amount, amount)
  {
    assert s0[0..] == s0 && s0[..0] == [];
  }

  /**
    One iteration of the pass-1 loop, giving the slots and the pending count after it:
    it keeps the invariant, or the pass is over.
   */
  lemma TopUpStep(s0: seq<Slot>, s: seq<Slot>, i: int, it: Item, amount: int, pending: int)
    returns (next: seq<Slot>, left: int)
    requires TopUpFrom(s0, s, i, it, amount, pending) && i < |s| && pending > 0
    ensures s[i].item == Some(it) && s[i].amount < it.maxStackSize ==>
      && left == pending - Min(pending, it.maxStackSize - s[i].amount)
      && next == s[i := Slot(s[i].item, s[i].amount + Min(pending, it.maxStackSize - s[i].amount))]
    ensures !(s[i].item == Some(it) && s[i].amount < it.maxStackSize) ==> next == s && left == pending
    ensures left <= 0 ==> TopUp(s0, it, amount) == (next, left)
    ensures left > 0 ==> TopUpFrom(s0, next, i + 1, it, amount, left)
  {
    TopUpAt(s0, i, it, pending);
    assert s[i] == s[i..][0] == s0[i];
    assert s[i + 1..] == s[i..][1..];
    var sl := s[i];
    if sl.item == Some(it) && sl.amount < it.maxStackSize {
      var added := Min(pending, it.maxStackSize - sl.amount);
      var h := Slot(sl.item, sl.amount + added);
      next, left := s[i := h], pending - added;
      if left <= 0 {
        UpdateSplit(s, i, h);
      } else {
        UpdatePrefix(s, i, h, TopUp(s0[i + 1..], it, left).0);
      }
    } else {
      next, left := s, pending;
      UpdatePrefix(s, i, sl, TopUp(s0[i + 1..], it, pending).0);
      assert s[i := sl] == s;
    }
  }

  lemma TopUpEnd(s0: seq<Slot>, s: seq<Slot>, it: Item, amount: int, pending: int)
    requires TopUpFrom(s0, s, |s|, it, amount, pending)
    ensures TopUp(s0, it, amount) == (s, pending)
  {
    assert s[..|s|] == s && s0[|s|..] == [];
    assert TopUp(s0[|s|..], it, pending) == ([], pending);
    assert s[..|s|] + [] == s;
    assert TopUp(s0, it, amount).0 == s;
  }

  /** The invariant of the pass-2 loop at index `i`, as for pass 1. */
  ghost predicate FillFrom(s0: seq<Slot>, s: seq<Slot>, i: int, it: Item, amount: int, pending: int) {
    && 0 <= i <= |s| == |s0| && s[i..] == s0[i..]
    && Fill(s0, it, amount).0 == s[..i] + Fill(s0[i..], it, pending).0
    && Fill(s0, it, amount).1 == Fill(s0[i..], it, pending).1
  }

  lemma FillStart(s0: seq<Slot>, it: Item, amount: int)
    ensures FillFrom(s0, s0, 0, it, amount, amount)
  {
    assert s0[0..] == s0 && s0[..0] == [];
  }

  lemma FillStep(s0: seq<Slot>, s: seq<Slot>, i: int, it: Item, amount: int, pending: int)
    returns (next: seq<Slot>, left: int)
    requires FillFrom(s0, s, i, it, amount, pending) && i < |s| && pending > 0
    ensures s[i].item == None ==>
      && left == pending - Min(pending, it.maxStackSize)
      && next == s[i := Slot(Some(it), Min(pending, it.maxStackSize))]
    ensures s[i].item != None ==> next == s && left == pending
    ensures left <= 0 ==> Fill(s0, it, amount) == (next, left)
    ensures left > 0 ==> FillFrom(s0, next, i + 1, it, amount, left)
  {
    FillAt(s0, i, it, pending);
    assert s[i] == s[i..][0] == s0[i];
    assert s[i + 1..] == s[i..][1..];
    if s[i].item == None {
      var placed := Min(pending, it.maxStackSize);
      var h := Slot(Some(it), placed);
      next, left := s[i := h], pending - placed;
      if left <= 0 {
        UpdateSplit(s, i, h);
      } else {
        UpdatePrefix(s, i, h, Fill(s0[i + 1..], it, left).0);
      }
    } else {
      next, left := s, pending;
      UpdatePrefix(s, i, s[i], Fill(s0[i + 1..], it, pending).0);
      assert s[i := s[i]] == s;
    }
  }

  lemma FillEnd(s0: seq<Slot>, s: seq<Slot>, it: Item, amount: int, pending: int)
    requires FillFrom(s0, s, |s|, it, amount, pending)
    ensures Fill(s0, it, amount) == (s, pending)
  {
    assert s[..|s|] == s && s0[|s|..] == [];
    assert Fill(s0[|s|..], it, pending) == ([], pending);
    assert s[..|s|] + [] == s;
    assert Fill(s0, it, amount).0 == s;
  }

  /**
    The first loop of `AddItem`: top up the slots already holding `it`, stopping as soon
    as nothing is left to place.
   */
  method TopUpPass(s0: seq<Slot>, it: Item, amount: int) returns (s: seq<Slot>, pending: int)
    requires amount > 0
    ensures (s, pending) == TopUp(s0, it, amount)
  {
    s, pending := s0, amount;
    TopUpStart(s0, it, amount);
    var i := 0;
    while i < |s|
      invariant TopUpFrom(s0, s, i, it, amount, pending) && pending > 0
    {
      ghost var next, left := TopUpStep(s0, s, i, it, amount, pending);
      if s[i].item == Some(it) && s[i].amount < it.maxStackSize {
        var canAdd := it.maxStackSize - s[i].amount;
        var addedAmount := Min(pending, canAdd);
        s := s[i := Slot(s[i].item, s[i].amount + addedAmount)];
        pending := pending - addedAmount;
        if pending <= 0 {
          return;
        }
      }
      assert s == next && pending == left;
      i := i + 1;
    }
    TopUpEnd(s0, s, it, amount, pending);
  }

  /**
    The second loop of `AddItem`: fill empty slots in order with stacks of at most
    `maxStackSize`, stopping as soon as nothing is left to place.
   */
  method FillPass(s0: seq<Slot>, it: Item, amount: int) returns (s: seq<Slot>, pending: int)
    requires amount > 0
    ensures (s, pending) == Fill(s0, it, amount)
  {
    s, pending := s0, amount;
    FillStart(s0, it, amount);
    var i := 0;
    while i < |s|
      invariant FillFrom(s0, s, i, it, amount, pending) && pending > 0
    {
      ghost var next, left := FillStep(s0, s, i, it, amount, pending);
      if s[i].item == None {
        s := s[i := Slot(Some(it), Min(pending, it.maxStackSize))];
        pending := pending - s[i].amount;
        if pending <= 0 {
          return;
        }
      }
      assert s == next && pending == left;
      i := i + 1;
    }
    FillEnd(s0, s, it, amount, pending);
  }

  /** `AddItem(item, amount)`: the new slots and the value returned. */
  function Add(s: seq<Slot>, item: Option<Item>, amount: int): (r: (seq<Slot>, bool))
    ensures |r.0| == |s|
    ensures item == None || amount <= 0 ==> r == (s, false)
  {
    if item == None || amount <= 0 then (s, false)
    else
      var (s1, p1) := TopUp(s, item.value, amount);
      if p1 <= 0 then (s1, true)
      else
        var (s2, p2) := Fill(s1, item.value, p1);
        (s2, p2 <= 0)
  }

  // ---------------------------------------------------------------------------
  // RemoveItem
  // ---------------------------------------------------------------------------

  /**
    The scan of `RemoveItem` with `pending` units still to take: the first slot holding
    at least `pending` units of `it` is decremented (and cleared if it reaches 0) and the
    call succeeds; a holding slot with fewer units is emptied and its count taken off
    `pending`; the scan fails when it runs out of slots. Slots drained before a failure
    stay drained.
   */
  function RemoveScan(s: seq<Slot>, it: Item, pending: int): (r: (seq<Slot>, bool))
    ensures |r.0| == |s|
  {
    if s == [] then ([], false)
    else if s[0].item == Some(it) && s[0].amount >= pending then
      var a := s[0].amount - pending;
      ([if a <= 0 then EmptySlot else Slot(s[0].item, a)] + s[1..], true)
    else if s[0].item == Some(it) && s[0].amount > 0 then
      // the source re-checks for pending <= 0 here; that cannot hold, since amount < pending
      var t := RemoveScan(s[1..], it, pending - s[0].amount);
      ([EmptySlot] + t.0, t.1)
    else
      var t := RemoveScan(s[1..], it, pending);
      ([s[0]] + t.0, t.1)
  }

  /** `RemoveItem(item, amount)`: the new slots and the value returned. */
  function Remove(s: seq<Slot>, item: Option<Item>, amount: int): (r: (seq<Slot>, bool))
    ensures |r.0| == |s|
    ensures item == None || amount <= 0 ==> r == (s, false)
  {
    if item == None || amount <= 0 then (s, false) else RemoveScan(s, item.value, amount)
  }

  // ---------------------------------------------------------------------------
  // AdjustSlots and ClearInventory
  // ---------------------------------------------------------------------------

  /**
    The backward removal loop of `AdjustSlots`: scanning from the last slot, remove a slot
    whose item is null while `toRemove` is positive; occupied slots are skipped.
   */
  function Shrink(s: seq<Slot>, toRemove: int): (r: seq<Slot>)
    decreases |s|
  {
    if s == [] || toRemove <= 0 then s
    else if s[|s| - 1].item == None then Shrink(s[..|s| - 1], toRemove - 1)
    else Shrink(s[..|s| - 1], toRemove) + [s[|s| - 1]]
  }

  /**
    The invariant of the backward removal loop at index `i`, with `toRemove` still to
    remove: the slots after `i` that survive are `tail`, and what is left of the scan over
    the slots up to `i` completes the shrink.
   */
  ghost predicate ShrinkFrom(s0: seq<Slot>, k0: int, s: seq<Slot>, i: int, toRemove: int, tail: seq<Slot>) {
    && -1 <= i < |s0|
    && s == s0[..i + 1] + tail
    && Shrink(s0, k0) == Shrink(s0[..i + 1], toRemove) + tail
  }

  lemma ShrinkStart(s0: seq<Slot>, k0: int)
    ensures ShrinkFrom(s0, k0, s0, |s0| - 1, k0, [])
  {
    assert s0[..|s0|] == s0;
  }

  /** One iteration of the removal loop: drop an empty slot `i`, or keep an occupied one. */
  lemma ShrinkStep(s0: seq<Slot>, k0: int, s: seq<Slot>, i: int, toRemove: int, tail: seq<Slot>)
    returns (next: seq<Slot>, left: int, nextTail: seq<Slot>)
    requires ShrinkFrom(s0, k0, s, i, toRemove, tail) && i >= 0 && toRemove > 0
    ensures s[i].item == None ==> next == s[..i] + s[i + 1..] && left == toRemove - 1
    ensures s[i].item != None ==> next == s && left == toRemove
    ensures ShrinkFrom(s0, k0, next, i - 1, left, nextTail)
  {
    var prefix := s0[..i + 1];
    assert prefix[..i] == s0[..i] && prefix[i] == s0[i] == s[i];
    assert s[..i] == s0[..i] && s[i + 1..] == tail;
    if s[i].item == None {
      next, left, nextTail := s[..i] + s[i + 1..], toRemove - 1, tail;
    } else {
      next, left, nextTail := s, toRemove, [s0[i]] + tail;
      assert Shrink(s0[..i], toRemove) + [s0[i]] + tail == Shrink(s0[..i], toRemove) + ([s0[i]] + tail);
      assert s == s0[..i] + ([s0[i]] + tail);
    }
  }

  lemma ShrinkEnd(s0: seq<Slot>, k0: int, s: seq<Slot>, i: int, toRemove: int, tail: seq<Slot>)
    requires ShrinkFrom(s0, k0, s, i, toRemove, tail) && (i < 0 || toRemove <= 0)
    ensures s == Shrink(s0, k0)
  {
  }

  /**
    `AdjustSlots(slotChange)` on slots `s` with base capacity `base` and bonus `bonus`:
    the new slots and the new bonus, which is floored at zero.
   */
  function Adjust(s: seq<Slot>, base: int, bonus: int, slotChange: int): (r: (seq<Slot>, int))
    ensures r.1 >= 0
    ensures r.1 == bonus + slotChange || (r.1 == 0 && bonus + slotChange < 0)
  {
    var previousMax := base + bonus;
    var newBonus := if bonus + slotChange < 0 then 0 else bonus + slotChange;
    var newMax := base + newBonus;
    if newMax > previousMax then (s + Empties(newMax - previousMax), newBonus)
    else if newMax < previousMax then (Shrink(s, previousMax - newMax), newBonus)
    else (s, newBonus)
  }

  /** `ClearInventory`: every slot emptied, none removed. */
  function Clear(s: seq<Slot>): (r: seq<Slot>)
    ensures |r| == |s|
  {
    Empties(|s|)
  }

  // ===========================================================================
  // Lemmas: measures
  // ===========================================================================

  lemma {:induction false} CountAppend(a: seq<Slot>, b: seq<Slot>, it: Item)
    ensures Count(a + b, it) == Count(a, it) + Count(b, it)
  {
    if a == [] {
      assert a + b == b;
    } else {
      assert (a + b)[1..] == a[1..] + b;
      CountAppend(a[1..], b, it);
    }
  }

  lemma {:induction false} CountNonNegative(s: seq<Slot>, it: Item)
    requires NonNegative(s, it)
    ensures Count(s, it) >= 0
  {
    if s != [] {
      CountNonNegative(s[1..], it);
    }
  }

  lemma {:induction false} RoomNonNegative(s: seq<Slot>, it: Item)
    requires it.maxStackSize > 0
    ensures TopRoom(s, it) >= 0 && FreeRoom(s, it) >= 0 && Room(s, it) >= 0
  {
    if s != [] {
      RoomNonNegative(s[1..], it);
    }
  }

  lemma {:induction false} CountEmpties(n: nat, it: Item)
    ensures Count(Empties(n), it) == 0
  {
    if n > 0 {
      assert Empties(n)[1..] == Empties(n - 1);
      CountEmpties(n - 1, it);
    }
  }

  lemma {:induction false} EmptiesAppend(m: nat, n: nat)
    ensures Empties(m) + Empties(n) == Empties(m + n)
  {
  }

  /** A slot list's units all sit in its occupied slots. */
  lemma {:induction false} CountOccupied(s: seq<Slot>, it: Item)
    ensures Count(Occupied(s), it) == Count(s, it)
  {
    if s != [] {
      var init, last := s[..|s| - 1], s[|s| - 1];
      assert s == init + [last];
      CountOccupied(init, it);
      CountAppend(init, [last], it);
      if last.item.Some? {
        CountAppend(Occupied(init), [last], it);
      } else {
        assert [last][1..] == [];
        assert Count([last], it) == 0;
        assert Occupied(s) == Occupied(init) + [];
        assert Occupied(s) == Occupied(init);
        assert Count(s, it) == Count(init, it);
      }
    }
  }

  lemma {:induction false} OccupiedAppend(a: seq<Slot>, b: seq<Slot>)
    ensures Occupied(a + b) == Occupied(a) + Occupied(b)
    decreases |b|
  {
    if b == [] {
      assert a + b == a;
    } else {
      var init := b[..|b| - 1];
      assert (a + b)[..|a + b| - 1] == a + init;
      OccupiedAppend(a, init);
    }
  }

  lemma {:induction false} EmptyCountAppend(a: seq<Slot>, b: seq<Slot>)
    ensures EmptyCount(a + b) == EmptyCount(a) + EmptyCount(b)
    decreases |b|
  {
    if b == [] {
      assert a + b == a;
    } else {
      var init := b[..|b| - 1];
      assert (a + b)[..|a + b| - 1] == a + init;
      EmptyCountAppend(a, init);
    }
  }

  lemma {:induction false} OccupiedEmpties(n: nat)
    ensures Occupied(Empties(n)) == [] && EmptyCount(Empties(n)) == n
  {
    if n > 0 {
      assert Empties(n)[..n - 1] == Empties(n - 1);
      OccupiedEmpties(n - 1);
    }
  }

  lemma {:induction false} OccupiedLength(s: seq<Slot>)
    ensures |Occupied(s)| == |s| - EmptyCount(s)
  {
    if s != [] {
      OccupiedLength(s[..|s| - 1]);
    }
  }

  // ===========================================================================
  // Lemmas: AddItem
  // ===========================================================================

  /** Pass 1 places `pending - left` units into the holders' free room, never more than asked. */
  lemma {:induction false} TopUpCounts(s: seq<Slot>, it: Item, pending: int)
    requires pending > 0
    ensures var (r, left) := TopUp(s, it, pending);
      && 0 <= left <= pending
      && Count(r, it) == Count(s, it) + (pending - left)
      && TopRoom(r, it) == TopRoom(s, it) - (pending - left)
      && FreeRoom(r, it) == FreeRoom(s, it)
      && (left > 0 ==> TopRoom(r, it) == 0)
  {
    if s != [] {
      var rest := s[1..];
      if s[0].item == Some(it) && s[0].amount < it.maxStackSize {
        var added := Min(pending, it.maxStackSize - s[0].amount);
        var left := pending - added;
        if left > 0 {
          TopUpCounts(rest, it, left);
          assert TopUp(s, it, pending).0[1..] == TopUp(rest, it, left).0;
        } else {
          assert TopUp(s, it, pending).0[1..] == rest;
        }
      } else {
        TopUpCounts(rest, it, pending);
        assert TopUp(s, it, pending).0[1..] == TopUp(rest, it, pending).0;
      }
    }
  }

  /** Pass 1 changes only slots holding `it`, keeps every slot's item, and keeps stacks well formed. */
  lemma {:induction false} TopUpShape(s: seq<Slot>, it: Item, pending: int)
    requires pending > 0
    ensures var r := TopUp(s, it, pending).0;
      && (forall j :: 0 <= j < |s| && s[j].item != Some(it) ==> r[j] == s[j])
      && (forall j :: 0 <= j < |s| ==> r[j].item == s[j].item)
      && (AllOk(s) ==> AllOk(r))
  {
    if s != [] {
      var rest := s[1..];
      if s[0].item == Some(it) && s[0].amount < it.maxStackSize {
        var added := Min(pending, it.maxStackSize - s[0].amount);
        var left := pending - added;
        if left > 0 {
          TopUpShape(rest, it, left);
          assert TopUp(s, it, pending).0[1..] == TopUp(rest, it, left).0;
        } else {
          assert TopUp(s, it, pending).0[1..] == rest;
        }
      } else {
        TopUpShape(rest, it, pending);
        assert TopUp(s, it, pending).0[1..] == TopUp(rest, it, pending).0;
      }
    }
  }

  /** Everything pass 1 promises, for the lemmas about `AddItem`. */
  lemma TopUpFacts(s: seq<Slot>, it: Item, pending: int)
    requires pending > 0
    ensures var (r, left) := TopUp(s, it, pending);
      && 0 <= left <= pending
      && Count(r, it) == Count(s, it) + (pending - left)
      && TopRoom(r, it) == TopRoom(s, it) - (pending - left)
      && FreeRoom(r, it) == FreeRoom(s, it)
      && (left > 0 ==> TopRoom(r, it) == 0)
      && (forall j :: 0 <= j < |s| && s[j].item != Some(it) ==> r[j] == s[j])
      && (forall j :: 0 <= j < |s| ==> r[j].item == s[j].item)
      && (AllOk(s) ==> AllOk(r))
  {
    TopUpCounts(s, it, pending);
    TopUpShape(s, it, pending);
  }

  /** Pass 2 places `pending - left` units into empty slots, using up that much room. */
  lemma {:induction false} FillCounts(s: seq<Slot>, it: Item, pending: int)
    requires pending > 0
    ensures var (r, left) := Fill(s, it, pending);
      && left >= 0
      && (it.maxStackSize > 0 ==> left <= pending)
      && Count(r, it) == Count(s, it) + (pending - left)
      && Room(r, it) == Room(s, it) - (pending - left)
      && (left > 0 ==> FreeRoom(r, it) == 0 && TopRoom(r, it) == TopRoom(s, it))
  {
    if s != [] {
      var rest := s[1..];
      if s[0].item == None {
        var h := Slot(Some(it), Min(pending, it.maxStackSize));
        var left := pending - h.amount;
        if left > 0 {
          FillCounts(rest, it, left);
          assert Fill(s, it, pending).0[1..] == Fill(rest, it, left).0;
        } else {
          assert Fill(s, it, pending).0[1..] == rest;
        }
      } else {
        FillCounts(rest, it, pending);
        assert Fill(s, it, pending).0[1..] == Fill(rest, it, pending).0;
      }
    }
  }

  /** Pass 2 leaves occupied slots alone and turns empty ones into well formed stacks of `it` or leaves them empty. */
  lemma {:induction false} FillShape(s: seq<Slot>, it: Item, pending: int)
    requires pending > 0
    ensures var r := Fill(s, it, pending).0;
      && (forall j :: 0 <= j < |s| && s[j].item.Some? ==> r[j] == s[j])
      && (forall j :: 0 <= j < |s| && s[j].item.None? ==> r[j] == s[j] || r[j].item == Some(it))
      && (AllOk(s) && it.maxStackSize > 0 ==> AllOk(r))
  {
    if s != [] {
      var rest := s[1..];
      if s[0].item == None {
        var h := Slot(Some(it), Min(pending, it.maxStackSize));
        var left := pending - h.amount;
        if left > 0 {
          FillShape(rest, it, left);
          assert Fill(s, it, pending).0[1..] == Fill(rest, it, left).0;
        } else {
          assert Fill(s, it, pending).0[1..] == rest;
        }
      } else {
        FillShape(rest, it, pending);
        assert Fill(s, it, pending).0[1..] == Fill(rest, it, pending).0;
      }
    }
  }

  /** Everything pass 2 promises, for the lemmas about `AddItem`. */
  lemma FillFacts(s: seq<Slot>, it: Item, pending: int)
    requires pending > 0
    ensures var (r, left) := Fill(s, it, pending);
      && left >= 0
      && (it.maxStackSize > 0 ==> left <= pending)
      && Count(r, it) == Count(s, it) + (pending - left)
      && Room(r, it) == Room(s, it) - (pending - left)
      && (left > 0 ==> FreeRoom(r, it) == 0 && TopRoom(r, it) == TopRoom(s, it))
      && (forall j :: 0 <= j < |s| && s[j].item.Some? ==> r[j] == s[j])
      && (forall j :: 0 <= j < |s| && s[j].item.None? ==> r[j] == s[j] || r[j].item == Some(it))
      && (AllOk(s) && it.maxStackSize > 0 ==> AllOk(r))
  {
    FillCounts(s, it, pending);
    FillShape(s, it, pending);
  }

  /**
    `AddItem` places exactly min(amount, room) units of the item, and reports success
    exactly when the whole amount fitted.
   */
  lemma AddPlacesMinOfAmountAndRoom(s: seq<Slot>, it: Item, amount: int)
    requires AllOk(s) && it.maxStackSize > 0 && amount > 0
    ensures var (r, ok) := Add(s, Some(it), amount);
      && Count(r, it) == Count(s, it) + Min(amount, Room(s, it))
      && (ok <==> amount <= Room(s, it))
      && (ok <==> Count(r, it) == Count(s, it) + amount)
  {
    TopUpFacts(s, it, amount);
    var (s1, p1) := TopUp(s, it, amount);
    RoomNonNegative(s1, it);
    if p1 > 0 {
      FillFacts(s1, it, p1);
      var (s2, p2) := Fill(s1, it, p1);
      RoomNonNegative(s2, it);
    }
  }

  /** Every unit `AddItem` places uses up one unit of room. */
  lemma AddUsesRoom(s: seq<Slot>, it: Item, amount: int)
    requires AllOk(s) && it.maxStackSize > 0 && amount > 0
    ensures Room(Add(s, Some(it), amount).0, it) == Room(s, it) - Min(amount, Room(s, it))
  {
    TopUpCounts(s, it, amount);
    var (s1, p1) := TopUp(s, it, amount);
    RoomNonNegative(s1, it);
    if p1 > 0 {
      FillCounts(s1, it, p1);
      var (s2, p2) := Fill(s1, it, p1);
      RoomNonNegative(s2, it);
    }
  }

  /** `n` calls of `AddItem(item, 1)` in a row, the first one first. */
  function AddUnits(s: seq<Slot>, it: Item, n: int): (r: seq<Slot>)
    ensures |r| == |s|
    decreases n
  {
    if n <= 0 then s else Add(AddUnits(s, it, n - 1), Some(it), 1).0
  }

  /**
    Adding `n` units one at a time places min(n, room) of them, as a single `AddItem(item, n)`
    does, and keeps every stack within its item's maximum.
   */
  lemma {:induction false} AddUnitsPlacesMin(s: seq<Slot>, it: Item, n: int)
    requires AllOk(s) && it.maxStackSize > 0
    ensures var r := AddUnits(s, it, n);
      && AllOk(r)
      && Count(r, it) == Count(s, it) + Min(if n > 0 then n else 0, Room(s, it))
      && Room(r, it) == Room(s, it) - Min(if n > 0 then n else 0, Room(s, it))
    decreases n
  {
    RoomNonNegative(s, it);
    if n > 0 {
      AddUnitsPlacesMin(s, it, n - 1);
      var r0 := AddUnits(s, it, n - 1);
      AddPlacesMinOfAmountAndRoom(r0, it, 1);
      AddUsesRoom(r0, it, 1);
      AddKeepsSlotsOk(r0, Some(it), 1);
    }
  }

  /** One unit at a time or all at once, the same number of units is placed. */
  lemma OneByOneMatchesBatch(s: seq<Slot>, it: Item, n: int)
    requires AllOk(s) && it.maxStackSize > 0 && n > 0
    ensures Count(AddUnits(s, it, n), it) == Count(Add(s, Some(it), n).0, it)
  {
    AddUnitsPlacesMin(s, it, n);
    AddPlacesMinOfAmountAndRoom(s, it, n);
  }

  /** `AddItem` keeps the slot invariant, so no slot ever exceeds its item's stack size. */
  lemma AddKeepsSlotsOk(s: seq<Slot>, item: Option<Item>, amount: int)
    requires AllOk(s)
    requires item.Some? ==> item.value.maxStackSize > 0
    ensures AllOk(Add(s, item, amount).0)
  {
    if item.Some? && amount > 0 {
      var it := item.value;
      TopUpFacts(s, it, amount);
      var (s1, p1) := TopUp(s, it, amount);
      if p1 > 0 {
        FillFacts(s1, it, p1);
      }
    }
  }

  /**
    `AddItem` touches no slot holding another item; a slot holding the item keeps it, and
    an empty slot either stays as it was or receives the item.
   */
  lemma AddTouchesOnlyItemAndEmptySlots(s: seq<Slot>, item: Option<Item>, amount: int, j: int)
    requires 0 <= j < |s|
    ensures var r := Add(s, item, amount).0;
      && (s[j].item.Some? && s[j].item != item ==> r[j] == s[j])
      && (s[j].item.Some? ==> r[j].item == s[j].item)
      && (s[j].item.None? ==> r[j] == s[j] || r[j].item == item)
  {
    if item.Some? && amount > 0 {
      var it := item.value;
      TopUpFacts(s, it, amount);
      var (s1, p1) := TopUp(s, it, amount);
      if p1 > 0 {
        FillFacts(s1, it, p1);
      }
    }
  }

  /** Adding one item changes no other item's total. */
  lemma {:induction false} AddKeepsOtherCounts(s: seq<Slot>, item: Option<Item>, amount: int, other: Item)
    requires item != Some(other)
    ensures Count(Add(s, item, amount).0, other) == Count(s, other)
  {
    var r := Add(s, item, amount).0;
    forall j | 0 <= j < |s|
      ensures (if r[j].item == Some(other) then r[j].amount else 0) == (if s[j].item == Some(other) then s[j].amount else 0)
    {
      AddTouchesOnlyItemAndEmptySlots(s, item, amount, j);
    }
    PointwiseCount(s, r, other);
  }

  /** Two slot lists of the same length that agree slot by slot on an item's units agree on its total. */
  lemma {:induction false} PointwiseCount(s: seq<Slot>, r: seq<Slot>, it: Item)
    requires |s| == |r|
    requires forall j :: 0 <= j < |s| ==>
      (if r[j].item == Some(it) then r[j].amount else 0) == (if s[j].item == Some(it) then s[j].amount else 0)
    ensures Count(r, it) == Count(s, it)
  {
    if s != [] {
      PointwiseCount(s[1..], r[1..], it);
    }
  }

  /** Pass 2 is first-fit: once an empty slot is passed over, every later slot is left as it was. */
  lemma {:induction false} FillIsFirstFit(s: seq<Slot>, it: Item, pending: int, j: int, k: int)
    requires pending > 0
    requires 0 <= j < k < |s|
    requires s[j].item.None?
    ensures Fill(s, it, pending).0[j].item.None? ==> Fill(s, it, pending).0[k] == s[k]
  {
    var rest := s[1..];
    if j > 0 {
      if s[0].item == None {
        var left := pending - Min(pending, it.maxStackSize);
        if left > 0 {
          assert Fill(s, it, pending).0[1..] == Fill(rest, it, left).0;
          FillIsFirstFit(rest, it, left, j - 1, k - 1);
        } else {
          assert Fill(s, it, pending).0[1..] == rest;
        }
      } else {
        assert Fill(s, it, pending).0[1..] == Fill(rest, it, pending).0;
        FillIsFirstFit(rest, it, pending, j - 1, k - 1);
      }
    }
  }

  /** `AddItem` fills empty slots left to right: it never skips an empty slot to fill a later one. */
  lemma AddFillsEmptySlotsInOrder(s: seq<Slot>, item: Option<Item>, amount: int, j: int, k: int)
    requires 0 <= j < k < |s|
    requires s[j].item.None? && s[k].item.None?
    requires Add(s, item, amount).0[k].item.Some?
    ensures Add(s, item, amount).0[j].item.Some?
  {
    var it := item.value;
    TopUpFacts(s, it, amount);
    var (s1, p1) := TopUp(s, it, amount);
    FillIsFirstFit(s1, it, p1, j, k);
    FillFacts(s1, it, p1);
  }

  /** Scenario: 150 units of an item stacking to 99 go into an empty 20-slot store as 99 + 51. */
  lemma AddScenarioTwoStacks(it: Item)
    requires it.maxStackSize == DefaultMaxStackSize
    ensures Add(Empties(20), Some(it), 150) == ([Slot(Some(it), 99), Slot(Some(it), 51)] + Empties(18), true)
  {
    var s := Empties(20);
    TopUpNoHolders(s, it, 150);
    assert s[1..][1..] == Empties(18);
    assert Fill(s[1..], it, 51) == ([Slot(Some(it), 51)] + Empties(18), 0);
    assert s[0] == EmptySlot;
    assert [Slot(Some(it), 99)] + ([Slot(Some(it), 51)] + Empties(18)) == [Slot(Some(it), 99), Slot(Some(it), 51)] + Empties(18);
  }

  /** With no slot holding `it` yet, pass 1 changes nothing. */
  lemma {:induction false} TopUpNoHolders(s: seq<Slot>, it: Item, pending: int)
    requires forall j :: 0 <= j < |s| ==> s[j].item != Some(it)
    ensures TopUp(s, it, pending) == (s, pending)
  {
    if s != [] {
      var rest := s[1..];
      assert forall j :: 0 <= j < |rest| ==> rest[j] == s[j + 1];
      TopUpNoHolders(rest, it, pending);
      assert [s[0]] + rest == s;
    }
  }

  // ===========================================================================
  // Lemmas: RemoveItem
  // ===========================================================================

  /**
    `RemoveItem` succeeds exactly when enough units are held; on success it takes exactly
    `amount` units, and on failure it has drained every slot of the item anyway.
    Slots of other items are left as they were.
   */
  lemma {:induction false} RemoveScanFacts(s: seq<Slot>, it: Item, pending: int)
    requires pending > 0 && NonNegative(s, it)
    ensures var (r, ok) := RemoveScan(s, it, pending);
      && (ok <==> Count(s, it) >= pending)
      && Count(r, it) == (if ok then Count(s, it) - pending else 0)
      && (forall j :: 0 <= j < |s| && s[j].item != Some(it) ==> r[j] == s[j])
      && (AllOk(s) ==> AllOk(r))
  {
    if s != [] {
      var rest := s[1..];
      assert NonNegative(rest, it) by {
        forall j | 0 <= j < |rest| && rest[j].item == Some(it) ensures rest[j].amount >= 0 {
          assert rest[j] == s[j + 1];
        }
      }
      CountNonNegative(rest, it);
      if s[0].item == Some(it) && s[0].amount >= pending {
        assert RemoveScan(s, it, pending).0[1..] == rest;
      } else if s[0].item == Some(it) && s[0].amount > 0 {
        RemoveScanFacts(rest, it, pending - s[0].amount);
        assert RemoveScan(s, it, pending).0[1..] == RemoveScan(rest, it, pending - s[0].amount).0;
      } else {
        RemoveScanFacts(rest, it, pending);
        assert RemoveScan(s, it, pending).0[1..] == RemoveScan(rest, it, pending).0;
      }
    }
  }

  /** The scan of `RemoveItem` at index `i`, in terms of the slot there and the scan of the rest. */
  lemma RemoveScanAt(s: seq<Slot>, i: int, it: Item, pending: int)
    requires 0 <= i < |s|
    ensures RemoveScan(s[i..], it, pending) ==
      if s[i].item == Some(it) && s[i].amount >= pending then
        ([if s[i].amount - pending <= 0 then EmptySlot else Slot(s[i].item, s[i].amount - pending)] + s[i + 1..], true)
      else if s[i].item == Some(it) && s[i].amount > 0 then
        ([EmptySlot] + RemoveScan(s[i + 1..], it, pending - s[i].amount).0,
         RemoveScan(s[i + 1..], it, pending - s[i].amount).1)
      else
        ([s[i]] + RemoveScan(s[i + 1..], it, pending).0, RemoveScan(s[i + 1..], it, pending).1)
  {
    assert s[i..][0] == s[i] && s[i..][1..] == s[i + 1..];
  }

  /** The invariant of the `RemoveItem` loop at index `i`, as for the passes of `AddItem`. */
  ghost predicate RemoveScanFrom(s0: seq<Slot>, s: seq<Slot>, i: int, it: Item, amount: int, pending: int) {
    && 0 <= i <= |s| == |s0| && s[i..] == s0[i..]
    && RemoveScan(s0, it, amount).0 == s[..i] + RemoveScan(s0[i..], it, pending).0
    && RemoveScan(s0, it, amount).1 == RemoveScan(s0[i..], it, pending).1
  }

  lemma RemoveScanStart(s0: seq<Slot>, it: Item, amount: int)
    ensures RemoveScanFrom(s0, s0, 0, it, amount, amount)
  {
    assert s0[0..] == s0 && s0[..0] == [];
  }

  lemma RemoveScanStep(s0: seq<Slot>, s: seq<Slot>, i: int, it: Item, amount: int, pending: int)
    requires RemoveScanFrom(s0, s, i, it, amount, pending) && i < |s|
    ensures var sl := s[i];
      if sl.item == Some(it) && sl.amount >= pending then
        var a := sl.amount - pending;
        RemoveScan(s0, it, amount) == (s[i := if a <= 0 then EmptySlot else Slot(sl.item, a)], true)
      else if sl.item == Some(it) && sl.amount > 0 then
        RemoveScanFrom(s0, s[i := EmptySlot], i + 1, it, amount, pending - sl.amount)
      else RemoveScanFrom(s0, s, i + 1, it, amount, pending)
  {
    RemoveScanAt(s0, i, it, pending);
    assert s[i] == s[i..][0] == s0[i];
    assert s[i + 1..] == s[i..][1..];
    var sl := s[i];
    if sl.item == Some(it) && sl.amount >= pending {
      var a := sl.amount - pending;
      UpdateSplit(s, i, if a <= 0 then EmptySlot else Slot(sl.item, a));
    } else if sl.item == Some(it) && sl.amount > 0 {
      UpdatePrefix(s, i, EmptySlot, RemoveScan(s0[i + 1..], it, pending - sl.amount).0);
    } else {
      UpdatePrefix(s, i, sl, RemoveScan(s0[i + 1..], it, pending).0);
      assert s[i := sl] == s;
    }
  }

  lemma RemoveScanEnd(s0: seq<Slot>, s: seq<Slot>, it: Item, amount: int, pending: int)
    requires RemoveScanFrom(s0, s, |s|, it, amount, pending)
    ensures RemoveScan(s0, it, amount) == (s, false)
  {
    assert s[..|s|] == s && s0[|s|..] == [];
    assert RemoveScan(s0[|s|..], it, pending) == ([], false);
    assert s[..|s|] + [] == s;
    assert RemoveScan(s0, it, amount).0 == s;
  }

  lemma RemoveSucceedsIffEnough(s: seq<Slot>, it: Item, amount: int)
    requires amount > 0 && AllOk(s)
    ensures var (r, ok) := Remove(s, Some(it), amount);
      && (ok <==> Count(s, it) >= amount)
      && (ok ==> Count(r, it) == Count(s, it) - amount)
      && (!ok ==> Count(r, it) == 0)
      && AllOk(r)
  {
    RemoveScanFacts(s, it, amount);
  }

  /** `RemoveItem` keeps the slot invariant. */
  lemma RemoveKeepsSlotsOk(s: seq<Slot>, item: Option<Item>, amount: int)
    requires AllOk(s)
    ensures AllOk(Remove(s, item, amount).0)
  {
    if item.Some? && amount > 0 {
      RemoveScanFacts(s, item.value, amount);
    }
  }

  lemma RemoveTouchesOnlyItemSlots(s: seq<Slot>, item: Option<Item>, amount: int, j: int)
    requires 0 <= j < |s| && s[j].item != item
    ensures Remove(s, item, amount).0[j] == s[j]
  {
    if item.Some? && amount > 0 {
      RemoveScanNonHolders(s, item.value, amount, j);
    }
  }

  lemma {:induction false} RemoveScanNonHolders(s: seq<Slot>, it: Item, pending: int, j: int)
    requires 0 <= j < |s| && s[j].item != Some(it)
    ensures RemoveScan(s, it, pending).0[j] == s[j]
  {
    if j > 0 {
      var rest := s[1..];
      if s[0].item == Some(it) && s[0].amount >= pending {
      } else if s[0].item == Some(it) && s[0].amount > 0 {
        RemoveScanNonHolders(rest, it, pending - s[0].amount, j - 1);
      } else {
        RemoveScanNonHolders(rest, it, pending, j - 1);
      }
    }
  }

  /** Scenario: asking for 5 units when only 3 are held fails, and the 3 units are gone. */
  lemma RemoveIsNotAllOrNothing(it: Item)
    requires it.maxStackSize >= 3
    ensures Remove([Slot(Some(it), 3)], Some(it), 5) == ([EmptySlot], false)
  {
    var s := [Slot(Some(it), 3)];
    assert s[1..] == [];
    assert RemoveScan([], it, 2) == ([], false);
    assert RemoveScan(s, it, 5) == ([EmptySlot] + [], false);
    assert [EmptySlot] + [] == [EmptySlot];
  }

  // ===========================================================================
  // Lemmas: AdjustSlots
  // ===========================================================================

  /**
    Shrinking removes empty slots only and the last ones: the result is the list up to some
    point followed by the occupied slots after it, and the number of empty slots after that
    point is as many as were asked for, or all there were.
   */
  lemma {:induction false} ShrinkRemovesTrailingEmpties(s: seq<Slot>, toRemove: int) returns (m: nat)
    ensures m <= |s|
    ensures Shrink(s, toRemove) == s[..m] + Occupied(s[m..])
    ensures EmptyCount(s[m..]) == Min(if toRemove < 0 then 0 else toRemove, EmptyCount(s))
    decreases |s|
  {
    if s == [] || toRemove <= 0 {
      m := |s|;
      assert s[m..] == [];
    } else {
      var init, last := s[..|s| - 1], s[|s| - 1];
      m := ShrinkRemovesTrailingEmpties(init, if last.item == None then toRemove - 1 else toRemove);
      assert s[m..] == init[m..] + [last];
      assert s[..m] == init[..m];
      Snoc(init[m..], last);
    }
  }

  /** Appending one slot extends the occupied slots or the empty count by that slot. */
  lemma Snoc(a: seq<Slot>, x: Slot)
    ensures Occupied(a + [x]) == Occupied(a) + (if x.item.Some? then [x] else [])
    ensures EmptyCount(a + [x]) == EmptyCount(a) + (if x.item.None? then 1 else 0)
  {
    assert (a + [x])[..|a|] == a;
  }

  /** Shrinking never evicts an occupied slot and keeps the occupied slots in order. */
  lemma ShrinkKeepsOccupied(s: seq<Slot>, toRemove: int)
    ensures Occupied(Shrink(s, toRemove)) == Occupied(s)
    ensures |Shrink(s, toRemove)| == |s| - Min(if toRemove < 0 then 0 else toRemove, EmptyCount(s))
  {
    var m := ShrinkRemovesTrailingEmpties(s, toRemove);
    assert s == s[..m] + s[m..];
    OccupiedAppend(s[..m], s[m..]);
    OccupiedAppend(s[..m], Occupied(s[m..]));
    OccupiedIdempotent(s[m..]);
    OccupiedLength(s[m..]);
  }

  lemma {:induction false} OccupiedIdempotent(s: seq<Slot>)
    ensures Occupied(Occupied(s)) == Occupied(s)
  {
    if s != [] {
      var init, last := s[..|s| - 1], s[|s| - 1];
      OccupiedIdempotent(init);
      if last.item.Some? {
        Snoc(Occupied(init), last);
      } else {
        assert Occupied(s) == Occupied(init);
      }
    }
  }

  /** Shrinking by n right after n empty slots were appended gives the list back. */
  lemma {:induction false} ShrinkUndoesAppend(s: seq<Slot>, n: nat)
    ensures Shrink(s + Empties(n), n) == s
  {
    if n == 0 {
      assert s + Empties(0) == s;
    } else {
      var t := s + Empties(n);
      assert t[..|t| - 1] == s + Empties(n - 1);
      ShrinkUndoesAppend(s, n - 1);
    }
  }

  /** `AdjustSlots` never loses or moves an item: occupied slots and every item's total stay. */
  lemma AdjustKeepsItems(s: seq<Slot>, base: int, bonus: int, slotChange: int, it: Item)
    ensures Occupied(Adjust(s, base, bonus, slotChange).0) == Occupied(s)
    ensures Count(Adjust(s, base, bonus, slotChange).0, it) == Count(s, it)
  {
    var r := Adjust(s, base, bonus, slotChange).0;
    var previousMax := base + bonus;
    var newBonus := if bonus + slotChange < 0 then 0 else bonus + slotChange;
    var newMax := base + newBonus;
    if newMax > previousMax {
      OccupiedAppend(s, Empties(newMax - previousMax));
      OccupiedEmpties(newMax - previousMax);
      assert Occupied(s) + [] == Occupied(s);
    } else if newMax < previousMax {
      ShrinkKeepsOccupied(s, previousMax - newMax);
    }
    CountOccupied(r, it);
    CountOccupied(s, it);
  }

  /**
    `AdjustSlots` keeps at least as many slots as the capacity: growth appends exactly the
    capacity gained, and a shrink may leave extra slots behind when too few were empty.
   */
  lemma AdjustKeepsCapacity(s: seq<Slot>, base: int, bonus: int, slotChange: int)
    requires |s| >= base + bonus
    ensures var (r, newBonus) := Adjust(s, base, bonus, slotChange);
      && |r| >= base + newBonus
      && (base + newBonus > base + bonus ==> |r| == |s| + newBonus - bonus)
      && |r| <= |s| + (if newBonus > bonus then newBonus - bonus else 0)
  {
    var previousMax := base + bonus;
    var newBonus := if bonus + slotChange < 0 then 0 else bonus + slotChange;
    if base + newBonus < previousMax {
      ShrinkKeepsOccupied(s, previousMax - (base + newBonus));
    }
  }

  lemma {:induction false} ShrinkKeepsSlotsOk(s: seq<Slot>, toRemove: int)
    requires AllOk(s)
    ensures AllOk(Shrink(s, toRemove))
    decreases |s|
  {
    if s != [] && toRemove > 0 {
      var init, last := s[..|s| - 1], s[|s| - 1];
      assert AllOk(init) by {
        forall j | 0 <= j < |init| ensures SlotOk(init[j]) {
          assert init[j] == s[j];
        }
      }
      if last.item == None {
        ShrinkKeepsSlotsOk(init, toRemove - 1);
      } else {
        ShrinkKeepsSlotsOk(init, toRemove);
        var r := Shrink(init, toRemove);
        forall j | 0 <= j < |r| + 1 ensures SlotOk((r + [last])[j]) {
          if j < |r| {
            assert (r + [last])[j] == r[j];
          }
        }
      }
    }
  }

  /** `AdjustSlots` keeps the slot invariant: new slots are empty and removed ones were. */
  lemma AdjustKeepsSlotsOk(s: seq<Slot>, base: int, bonus: int, slotChange: int)
    requires AllOk(s)
    ensures AllOk(Adjust(s, base, bonus, slotChange).0)
  {
    var previousMax := base + bonus;
    var newBonus := if bonus + slotChange < 0 then 0 else bonus + slotChange;
    if base + newBonus < previousMax {
      ShrinkKeepsSlotsOk(s, previousMax - (base + newBonus));
    } else if base + newBonus > previousMax {
      var r := s + Empties(base + newBonus - previousMax);
      forall j | 0 <= j < |r| ensures SlotOk(r[j]) {
        if j < |s| {
          assert r[j] == s[j];
        }
      }
    }
  }

  /** Equipping then unequipping a backpack with nothing in between restores the slots exactly. */
  lemma AdjustRoundTrip(s: seq<Slot>, base: int, bonus: int, n: nat)
    requires bonus >= 0
    ensures var (s1, b1) := Adjust(s, base, bonus, n);
      Adjust(s1, base, b1, -(n as int)) == (s, bonus)
  {
    if n > 0 {
      ShrinkUndoesAppend(s, n);
    }
  }

  /** Growing by n twice is growing by 2n once (the double bonus of a used backpack). */
  lemma AdjustGrowTwice(s: seq<Slot>, base: int, bonus: int, n: nat)
    requires bonus >= 0
    ensures var (s1, b1) := Adjust(s, base, bonus, n);
      Adjust(s1, base, b1, n) == Adjust(s, base, bonus, 2 * n)
  {
    if n > 0 {
      EmptiesAppend(n, n);
      assert s + Empties(n) + Empties(n) == s + (Empties(n) + Empties(n));
    }
  }

  /** Clearing leaves no unit of any item, and every slot satisfies the slot invariant. */
  lemma ClearEmptiesAll(s: seq<Slot>, it: Item)
    ensures Count(Clear(s), it) == 0 && AllOk(Clear(s)) && EmptyCount(Clear(s)) == |s|
  {
    CountEmpties(|s|, it);
    OccupiedEmpties(|s|);
  }
}
