/**
  `ResourceTilemapManager`: the table of destructible resource tiles of a scene, keyed by
  cell, with each tile's remaining health. Tiles are tracked when the scene is set up,
  damaged or destroyed by the player, and drop their item when they go.

  The engine's `Tilemap` is modelled by a class holding the painted tiles as a map from
  cell to tile. `PlayerPrefs` becomes a map parameter, the random draw of the drop count a
  `roll` parameter, and the spawned `DroppedItem` pickups a log of what was spawned.
 */
module ResourceTiles {
  import opened Wrappers
  import opened Items
  import opened SlotStore
  import opened PlayerState
  import Text

  /** `Vector3Int`: a cell of the tile grid. */
  datatype Cell = Cell(x: int, y: int, z: int)

  /** `BoundsInt`: the box of cells from `position` spanning `size` along each axis. */
  datatype Bounds = Bounds(position: Cell, size: Cell)

  predicate Within(b: Bounds, c: Cell) {
    && b.position.x <= c.x < b.position.x + b.size.x
    && b.position.y <= c.y < b.position.y + b.size.y
    && b.position.z <= c.z < b.position.z + b.size.z
  }

  /** The first `n` cells of the row at height `y` in layer `z`, lowest `x` first. */
  function Row(b: Bounds, y: int, z: int, n: int): seq<Cell>
    decreases n
  {
    if n <= 0 then [] else Row(b, y, z, n - 1) + [Cell(b.position.x + n - 1, y, z)]
  }

  /** The first `n` rows of layer `z`, lowest `y` first. */
  function Layer(b: Bounds, z: int, n: int): seq<Cell>
    decreases n
  {
    if n <= 0 then [] else Layer(b, z, n - 1) + Row(b, b.position.y + n - 1, z, b.size.x)
  }

  /** The first `n` layers of the box, lowest `z` first. */
  function Layers(b: Bounds, n: int): seq<Cell>
    decreases n
  {
    if n <= 0 then [] else Layers(b, n - 1) + Layer(b, b.position.z + n - 1, b.size.y)
  }

  /** `BoundsInt.allPositionsWithin`: every cell of the box, `x` running fastest. */
  function AllPositionsWithin(b: Bounds): seq<Cell> {
    Layers(b, b.size.z)
  }

  lemma {:induction false} RowMembers(b: Bounds, y: int, z: int, n: int, c: Cell)
    ensures c in Row(b, y, z, n) <==> c.y == y && c.z == z && b.position.x <= c.x < b.position.x + n
    decreases n
  {
    if n > 0 {
      RowMembers(b, y, z, n - 1, c);
    }
  }

  lemma {:induction false} LayerMembers(b: Bounds, z: int, n: int, c: Cell)
    ensures c in Layer(b, z, n) <==>
      c.z == z && b.position.y <= c.y < b.position.y + n && b.position.x <= c.x < b.position.x + b.size.x
    decreases n
  {
    if n > 0 {
      LayerMembers(b, z, n - 1, c);
      RowMembers(b, b.position.y + n - 1, z, b.size.x, c);
    }
  }

  lemma {:induction false} LayersMembers(b: Bounds, n: int, c: Cell)
    ensures c in Layers(b, n) <==>
      b.position.z <= c.z < b.position.z + n && b.position.y <= c.y < b.position.y + b.size.y
      && b.position.x <= c.x < b.position.x + b.size.x
    decreases n
  {
    if n > 0 {
      LayersMembers(b, n - 1, c);
      LayerMembers(b, b.position.z + n - 1, b.size.y, c);
    }
  }

  /** The enumeration visits exactly the cells inside the bounds. */
  lemma AllPositionsWithinExactly(b: Bounds, c: Cell)
    ensures c in AllPositionsWithin(b) <==> Within(b, c)
  {
    LayersMembers(b, b.size.z, c);
  }

  // ---------------------------------------------------------------------------
  // Tiles
  // ---------------------------------------------------------------------------

  /**
    The `ResourceTile` asset: what the tile drops (and how many, inclusive bounds), its
    health, whether it can be destroyed and which resource it yields. The asset defaults
    are no drop item, 1 to 3 units, 100 health, destructible, wood.
   */
  datatype ResourceTile = ResourceTile(
    id: nat,
    dropItem: Option<Item>,
    minDropAmount: int,
    maxDropAmount: int,
    maxHealth: real,
    isDestructible: bool,
    resourceType: ResourceType)

  /** A painted tile: a resource tile, or any other `TileBase` (identified by its asset). */
  datatype TileBase = Resource(tile: ResourceTile) | Other(asset: nat)

  datatype CellLayout = Rectangle | Hexagon | Isometric | IsometricZAsY

  /** `ResourceTileData`: a tracked tile's remaining health and its asset. */
  datatype TileData = TileData(currentHealth: real, tile: ResourceTile)

  /** `new ResourceTileData(tile)`: full health. */
  function NewTileData(tile: ResourceTile): TileData {
    TileData(tile.maxHealth, tile)
  }

  /** A single-unit `DroppedItem` pickup spawned in the world. */
  datatype Pickup = Pickup(item: Item, amount: int)

  /** The dropped-item prefab; `hasDroppedItem` says whether it carries a `DroppedItem` component. */
  datatype Prefab = Prefab(hasDroppedItem: bool)

  /** `GetTile<ResourceTile>(c)`: the resource tile painted at `c`, if any. */
  function ResourceTileAt(tiles: map<Cell, TileBase>, c: Cell): Option<ResourceTile> {
    if c in tiles && tiles[c].Resource? then Some(tiles[c].tile) else None
  }

  /** The test both set-up scans apply: a resource tile is painted at `c` and it is destructible. */
  predicate DestructibleAt(tiles: map<Cell, TileBase>, c: Cell) {
    ResourceTileAt(tiles, c).Some? && ResourceTileAt(tiles, c).value.isDestructible
  }

  // ---------------------------------------------------------------------------
  // Persistence keys
  // ---------------------------------------------------------------------------

  /** The `PlayerPrefs` key of a cell: `Tile_{x}_{y}_{z}`. */
  function TileKey(c: Cell): string {
    "Tile_" + Joined(Text.IntToString(c.x), Joined(Text.IntToString(c.y), Text.IntToString(c.z)))
  }

  /** `a_b`. */
  function Joined(a: string, b: string): string {
    a + "_" + b
  }

  lemma NoUnderscore(n: int)
    ensures '_' !in Text.IntToString(n)
  {
  }

  /** Distinct cells have distinct keys, so each cell has a flag of its own. */
  lemma TileKeyInjective(a: Cell, b: Cell)
    requires TileKey(a) == TileKey(b)
    ensures a == b
  {
    var xa, ya, za := Text.IntToString(a.x), Text.IntToString(a.y), Text.IntToString(a.z);
    var xb, yb, zb := Text.IntToString(b.x), Text.IntToString(b.y), Text.IntToString(b.z);
    var ka, kb := Joined(xa, Joined(ya, za)), Joined(xb, Joined(yb, zb));
    assert ka == TileKey(a)[5..] && kb == TileKey(b)[5..];
    NoUnderscore(a.x); NoUnderscore(b.x);
    Text.SplitAtSeparator(xa, Joined(ya, za), xb, Joined(yb, zb), '_');
    NoUnderscore(a.y); NoUnderscore(b.y);
    Text.SplitAtSeparator(ya, za, yb, zb, '_');
    Text.IntToStringInjective(a.x, b.x);
    Text.IntToStringInjective(a.y, b.y);
    Text.IntToStringInjective(a.z, b.z);
  }

  /** `PlayerPrefs.GetInt(key, defaultValue)`. */
  function GetInt(prefs: map<string, int>, key: string, defaultValue: int): int {
    if key in prefs then prefs[key] else defaultValue
  }

  /** A cell whose saved flag is 0 was destroyed in an earlier visit; a missing flag reads as 1. */
  predicate DestroyedBefore(prefs: map<string, int>, c: Cell) {
    GetInt(prefs, TileKey(c), 1) == 0
  }

  // ---------------------------------------------------------------------------
  // The set-up scans
  // ---------------------------------------------------------------------------

  /** The table `InitializeTilemap` builds after visiting `ps`. */
  function Tracked(ps: seq<Cell>, tiles: map<Cell, TileBase>): map<Cell, TileData>
    decreases |ps|
  {
    if ps == [] then map[]
    else
      var m := Tracked(ps[..|ps| - 1], tiles);
      var c := ps[|ps| - 1];
      if DestructibleAt(tiles, c) then m[c := NewTileData(ResourceTileAt(tiles, c).value)] else m
  }

  /**
    The painted tiles and the table `LoadTilemapForMapBasic` leaves after visiting `ps`:
    a destructible tile whose flag is 0 is erased from the tilemap, any other destructible
    tile is tracked at full health.
   */
  function LoadScan(ps: seq<Cell>, tiles: map<Cell, TileBase>, prefs: map<string, int>)
    : (map<Cell, TileBase>, map<Cell, TileData>)
    decreases |ps|
  {
    if ps == [] then (tiles, map[])
    else
      var (t, m) := LoadScan(ps[..|ps| - 1], tiles, prefs);
      LoadStep(t, m, ps[|ps| - 1], prefs)
  }

  /** One cell of the scan: erase a destructible tile flagged 0, track any other destructible tile. */
  function LoadStep(t: map<Cell, TileBase>, m: map<Cell, TileData>, c: Cell, prefs: map<string, int>)
    : (map<Cell, TileBase>, map<Cell, TileData>)
  {
    if !DestructibleAt(t, c) then (t, m)
    else if DestroyedBefore(prefs, c) then (t - {c}, m)
    else (t, m[c := NewTileData(ResourceTileAt(t, c).value)])
  }

  /** `InitializeTilemap` tracks exactly the destructible cells visited, each at its tile's full health. */
  lemma {:induction false} TrackedExactly(ps: seq<Cell>, tiles: map<Cell, TileBase>)
    ensures forall c :: c in Tracked(ps, tiles) <==> c in ps && DestructibleAt(tiles, c)
    ensures forall c :: c in Tracked(ps, tiles) ==>
      DestructibleAt(tiles, c) && Tracked(ps, tiles)[c] == NewTileData(ResourceTileAt(tiles, c).value)
    decreases |ps|
  {
    if ps != [] {
      TrackedExactly(ps[..|ps| - 1], tiles);
      assert ps == ps[..|ps| - 1] + [ps[|ps| - 1]];
    }
  }

  /** `LoadTilemapForMapBasic` erases the cell `d` exactly when it was visited, destructible and flagged 0. */
  lemma {:induction false} LoadScanErases(ps: seq<Cell>, tiles: map<Cell, TileBase>, prefs: map<string, int>, d: Cell)
    ensures var t := LoadScan(ps, tiles, prefs).0;
      && (d in t <==> d in tiles && !(d in ps && DestructibleAt(tiles, d) && DestroyedBefore(prefs, d)))
      && (d in t ==> t[d] == tiles[d])
    decreases |ps|
  {
    if ps != [] {
      var front := ps[..|ps| - 1];
      var c := ps[|ps| - 1];
      LoadScanErases(front, tiles, prefs, d);
      LoadScanErases(front, tiles, prefs, c);
      assert ps == front + [c];
      assert d in ps <==> d in front || d == c;
    }
  }

  /**
    `LoadTilemapForMapBasic` tracks the cell `d` exactly when it was visited, destructible
    and not flagged 0, and then at its tile's full health.
   */
  lemma {:induction false} LoadScanTracks(ps: seq<Cell>, tiles: map<Cell, TileBase>, prefs: map<string, int>, d: Cell)
    ensures var m := LoadScan(ps, tiles, prefs).1;
      && (d in m <==> d in ps && DestructibleAt(tiles, d) && !DestroyedBefore(prefs, d))
      && (d in m ==> DestructibleAt(tiles, d) && m[d] == NewTileData(ResourceTileAt(tiles, d).value))
    decreases |ps|
  {
    if ps != [] {
      var front := ps[..|ps| - 1];
      var c := ps[|ps| - 1];
      LoadScanTracks(front, tiles, prefs, d);
      LoadScanErases(front, tiles, prefs, c);
      assert ps == front + [c];
      assert d in ps <==> d in front || d == c;
    }
  }

  /** What `LoadTilemapForMapBasic` tracks is still painted afterwards: the table and the tilemap agree. */
  lemma LoadScanConsistent(ps: seq<Cell>, tiles: map<Cell, TileBase>, prefs: map<string, int>)
    ensures Consistent(LoadScan(ps, tiles, prefs).1, LoadScan(ps, tiles, prefs).0)
  {
    var (t, m) := LoadScan(ps, tiles, prefs);
    forall c | c in m
      ensures DestructibleAt(t, c) && m[c].tile == ResourceTileAt(t, c).value
    {
      LoadScanTracks(ps, tiles, prefs, c);
      LoadScanErases(ps, tiles, prefs, c);
    }
  }

  /** With no flag at 0 (a first visit, say), loading is the plain initialisation. */
  lemma {:induction false} LoadWithoutFlagsIsInitialize(ps: seq<Cell>, tiles: map<Cell, TileBase>, prefs: map<string, int>)
    requires forall c :: c in ps ==> !DestroyedBefore(prefs, c)
    ensures LoadScan(ps, tiles, prefs) == (tiles, Tracked(ps, tiles))
    decreases |ps|
  {
    if ps != [] {
      LoadWithoutFlagsIsInitialize(ps[..|ps| - 1], tiles, prefs);
      assert ps[|ps| - 1] in ps;
    }
  }

  // ---------------------------------------------------------------------------
  // Drops
  // ---------------------------------------------------------------------------

  /**
    `Random.Range(lo, hi)` on integers, with the draw supplied as `roll`: a value in
    [lo, hi) when that is not empty, `lo` otherwise.
   */
  function RandomRange(lo: int, hi: int, roll: int): (r: int)
    ensures hi > lo ==> lo <= r < hi
    ensures hi <= lo ==> r == lo
  {
    if hi <= lo then lo else lo + roll % (hi - lo)
  }

  /** The drop count: the exclusive upper bound is `maxDropAmount + 1`, so both bounds can be drawn. */
  function DropAmount(t: ResourceTile, roll: int): (r: int)
    ensures t.minDropAmount <= t.maxDropAmount ==> t.minDropAmount <= r <= t.maxDropAmount
    ensures t.minDropAmount > t.maxDropAmount ==> r == t.minDropAmount
  {
    RandomRange(t.minDropAmount, t.maxDropAmount + 1, roll)
  }

  /** `n` single-unit pickups of `it` (none when `n` is not positive). */
  function Singles(it: Item, n: int): (r: seq<Pickup>)
    ensures |r| == if n > 0 then n else 0
    ensures forall k :: 0 <= k < |r| ==> r[k] == Pickup(it, 1)
  {
    seq(if n > 0 then n else 0, _ => Pickup(it, 1))
  }

  /** Every tracked cell holds a destructible resource tile, the one whose data is tracked. */
  ghost predicate Consistent(data: map<Cell, TileData>, tiles: map<Cell, TileBase>) {
    forall c :: c in data ==> DestructibleAt(tiles, c) && data[c].tile == ResourceTileAt(tiles, c).value
  }

  /** Forgetting a cell in both the table and the tilemap keeps them consistent. */
  lemma RemovalKeepsConsistent(data: map<Cell, TileData>, tiles: map<Cell, TileBase>, pos: Cell)
    requires Consistent(data, tiles)
    ensures Consistent(data - {pos}, tiles - {pos})
  {
    forall c | c in data - {pos}
      ensures DestructibleAt(tiles - {pos}, c) && (data - {pos})[c].tile == ResourceTileAt(tiles - {pos}, c).value
    {
      assert ResourceTileAt(tiles - {pos}, c) == ResourceTileAt(tiles, c);
    }
  }

  /** Changing a tracked cell's health keeps the table consistent with the tilemap. */
  lemma DamageKeepsConsistent(data: map<Cell, TileData>, tiles: map<Cell, TileBase>, pos: Cell, health: real)
    requires Consistent(data, tiles) && pos in data
    ensures Consistent(data[pos := data[pos].(currentHealth := health)], tiles)
  {
  }

  // ---------------------------------------------------------------------------
  // The engine tilemap
  // ---------------------------------------------------------------------------

  /** The part of Unity's `Tilemap` the manager uses. */
  class Tilemap {
    var tiles: map<Cell, TileBase>
    const cellBounds: Bounds
    /** The layout of the grid the tilemap belongs to; `None` when it has no grid. */
    const layoutGrid: Option<CellLayout>

    constructor (tiles: map<Cell, TileBase>, cellBounds: Bounds, layoutGrid: Option<CellLayout>)
      ensures this.tiles == tiles && this.cellBounds == cellBounds && this.layoutGrid == layoutGrid
    {
      this.tiles := tiles;
      this.cellBounds := cellBounds;
      this.layoutGrid := layoutGrid;
    }

    /** `SetTile(c, null)`: erase the tile at `c`. */
    method ClearTile(c: Cell)
      modifies this
      ensures tiles == old(tiles) - {c}
      ensures c !in tiles && forall d :: d != c && d in old(tiles) ==> d in tiles && tiles[d] == old(tiles)[d]
    {
      tiles := tiles - {c};
    }
  }

  // ---------------------------------------------------------------------------
  // The manager
  // ---------------------------------------------------------------------------

  class ResourceTilemapManager {
    var resourceTilemap: Tilemap?
    var droppedItemPrefab: Option<Prefab>
    var tileData: map<Cell, TileData>
    var isInitialized: bool
    /** The pickups spawned so far, oldest first. */
    var dropped: seq<Pickup>

    /**
      Once initialised there is a tilemap, and every tracked cell holds a destructible
      resource tile, the one whose data is tracked.
     */
    ghost predicate Valid()
      reads this, resourceTilemap
    {
      isInitialized ==> resourceTilemap != null && Consistent(tileData, resourceTilemap.tiles)
    }

    /** The references and the flag that damage, destruction and drops never change. */
    twostate predicate SameSetup()
      reads this
    {
      && resourceTilemap == old(resourceTilemap)
      && droppedItemPrefab == old(droppedItemPrefab)
      && isInitialized == old(isInitialized)
    }

    /** `pos` is gone from both the table and the tilemap, and nothing else is. */
    twostate predicate Removed(pos: Cell)
      reads this, resourceTilemap
      requires resourceTilemap != null && old(resourceTilemap) == resourceTilemap
    {
      tileData == old(tileData) - {pos} && resourceTilemap.tiles == old(resourceTilemap.tiles) - {pos}
    }

    /**
      What `DropItems` does for the tile asset `t`: nothing without a drop item; with no
      prefab the whole count goes to the inventory in one `AddItem`; otherwise one pickup
      per unit, or one `AddItem(item, 1)` per unit when the prefab has no pickup component.
     */
    twostate predicate DroppedFrom(t: ResourceTile, roll: int, inv: Inventory)
      reads this, inv
    {
      match t.dropItem
      case None => dropped == old(dropped) && unchanged(inv)
      case Some(it) =>
        var n := DropAmount(t, roll);
        if droppedItemPrefab == None then
          dropped == old(dropped) && inv.AddedBy(Some(it), n)
        else if droppedItemPrefab.value.hasDroppedItem then
          dropped == old(dropped) + Singles(it, n) && unchanged(inv)
        else
          && dropped == old(dropped)
          && inv.slots == AddUnits(old(inv.slots), it, n)
          && inv.additionalSlots == old(inv.additionalSlots)
          && inv.changes == old(inv.changes) + (if n > 0 then n else 0)
    }

    /** A manager for `resourceTilemap`, not yet initialised, tracking nothing. */
    constructor (resourceTilemap: Tilemap?, droppedItemPrefab: Option<Prefab>)
      ensures this.resourceTilemap == resourceTilemap && this.droppedItemPrefab == droppedItemPrefab
      ensures tileData == map[] && !isInitialized && dropped == []
      ensures Valid()
    {
      this.resourceTilemap := resourceTilemap;
      this.droppedItemPrefab := droppedItemPrefab;
      tileData := map[];
      isInitialized := false;
      dropped := [];
    }

    /**
      `InitializeTilemap`: track every destructible resource tile inside the tilemap's
      bounds at its full health, then mark the manager initialised. Without a tilemap the
      table is cleared and the manager stays uninitialised (the engine's null dereference
      at that point ends the call).
     */
    method InitializeTilemap()
      modifies this
      ensures resourceTilemap == old(resourceTilemap) && droppedItemPrefab == old(droppedItemPrefab) && dropped == old(dropped)
      ensures resourceTilemap == null ==> tileData == map[] && !isInitialized
      ensures resourceTilemap != null ==>
        && tileData == Tracked(AllPositionsWithin(resourceTilemap.cellBounds), resourceTilemap.tiles)
        && (forall c :: c in tileData <==> Within(resourceTilemap.cellBounds, c) && DestructibleAt(resourceTilemap.tiles, c))
        && (forall c :: c in tileData ==>
              DestructibleAt(resourceTilemap.tiles, c) && tileData[c] == NewTileData(ResourceTileAt(resourceTilemap.tiles, c).value))
        && isInitialized
      ensures Valid()
    {
      isInitialized := false;
      tileData := map[];
      if resourceTilemap == null {
        return;
      }
      var ps := AllPositionsWithin(resourceTilemap.cellBounds);
      var i := 0;
      while i < |ps|
        invariant 0 <= i <= |ps|
        invariant resourceTilemap == old(resourceTilemap) && droppedItemPrefab == old(droppedItemPrefab)
        invariant tileData == Tracked(ps[..i], resourceTilemap.tiles)
        invariant dropped == old(dropped)
      {
        var pos := ps[i];
        var tile := ResourceTileAt(resourceTilemap.tiles, pos);
        assert ps[..i + 1][..i] == ps[..i];
        if tile != None && tile.value.isDestructible {
          tileData := tileData[pos := NewTileData(tile.value)];
        }
        i := i + 1;
      }
      assert ps[..|ps|] == ps;
      isInitialized := true;
      TrackedExactly(ps, resourceTilemap.tiles);
      forall c
        ensures c in tileData <==> Within(resourceTilemap.cellBounds, c) && DestructibleAt(resourceTilemap.tiles, c)
      {
        AllPositionsWithinExactly(resourceTilemap.cellBounds, c);
      }
    }

    /**
      `LoadTilemapForMapBasic`: with a tilemap, a prefab and an isometric grid, erase the
      destructible tiles saved as destroyed and track the others; any missing piece makes it
      return early with the manager uninitialised and the old table kept.
     */
    method LoadTilemapForMapBasic(prefs: map<string, int>)
      modifies this, resourceTilemap
      ensures resourceTilemap == old(resourceTilemap) && droppedItemPrefab == old(droppedItemPrefab) && dropped == old(dropped)
      ensures resourceTilemap == null || droppedItemPrefab == None || resourceTilemap.layoutGrid != Some(Isometric) ==>
        && !isInitialized && tileData == old(tileData)
        && (resourceTilemap != null ==> unchanged(resourceTilemap))
      ensures resourceTilemap != null && droppedItemPrefab != None && resourceTilemap.layoutGrid == Some(Isometric) ==>
        var ps := AllPositionsWithin(resourceTilemap.cellBounds);
        && (resourceTilemap.tiles, tileData) == LoadScan(ps, old(resourceTilemap.tiles), prefs)
        && (forall c :: c in tileData <==>
              Within(resourceTilemap.cellBounds, c) && DestructibleAt(old(resourceTilemap.tiles), c) && !DestroyedBefore(prefs, c))
        && isInitialized
      ensures Valid()
    {
      isInitialized := false;
      if resourceTilemap == null {
        return;
      }
      if droppedItemPrefab == None {
        return;
      }
      if resourceTilemap.layoutGrid != Some(Isometric) {
        return;
      }
      ghost var t0 := resourceTilemap.tiles;
      ScanSaved(prefs);
      var ps := AllPositionsWithin(resourceTilemap.cellBounds);
      isInitialized := true;
      forall c
        ensures c in tileData <==> Within(resourceTilemap.cellBounds, c) && DestructibleAt(t0, c) && !DestroyedBefore(prefs, c)
      {
        AllPositionsWithinExactly(resourceTilemap.cellBounds, c);
        LoadScanTracks(ps, t0, prefs, c);
      }
      LoadScanConsistent(ps, t0, prefs);
    }

    /** One pass of the scan loop, for the cell `pos`. */
    method ScanCell(pos: Cell, prefs: map<string, int>)
      requires resourceTilemap != null
      modifies this, resourceTilemap
      ensures resourceTilemap == old(resourceTilemap) && droppedItemPrefab == old(droppedItemPrefab)
      ensures dropped == old(dropped) && isInitialized == old(isInitialized)
      ensures (resourceTilemap.tiles, tileData) == LoadStep(old(resourceTilemap.tiles), old(tileData), pos, prefs)
    {
      var tile := ResourceTileAt(resourceTilemap.tiles, pos);
      if tile != None && tile.value.isDestructible {
        var key := TileKey(pos);
        if GetInt(prefs, key, 1) == 0 {
          resourceTilemap.ClearTile(pos);
        } else {
          tileData := tileData[pos := NewTileData(tile.value)];
        }
      }
    }

    /** The scan loop of `LoadTilemapForMapBasic`: a fresh table, then `LoadScan` cell by cell. */
    method ScanSaved(prefs: map<string, int>)
      requires resourceTilemap != null
      modifies this, resourceTilemap
      ensures resourceTilemap == old(resourceTilemap) && droppedItemPrefab == old(droppedItemPrefab)
      ensures dropped == old(dropped) && isInitialized == old(isInitialized)
      ensures (resourceTilemap.tiles, tileData) == LoadScan(AllPositionsWithin(resourceTilemap.cellBounds), old(resourceTilemap.tiles), prefs)
    {
      tileData := map[];
      ghost var t0 := resourceTilemap.tiles;
      var ps := AllPositionsWithin(resourceTilemap.cellBounds);
      var i := 0;
      while i < |ps|
        invariant 0 <= i <= |ps|
        invariant resourceTilemap == old(resourceTilemap) && droppedItemPrefab == old(droppedItemPrefab)
        invariant (resourceTilemap.tiles, tileData) == LoadScan(ps[..i], t0, prefs)
        invariant dropped == old(dropped) && isInitialized == old(isInitialized)
      {
        assert ps[..i + 1][..i] == ps[..i];
        ScanCell(ps[i], prefs);
        i := i + 1;
      }
      assert ps[..|ps|] == ps;
    }

    /**
      `DropItems(pos)`: for a tracked cell whose tile has a drop item, draw the count and
      hand that many units to the inventory or spawn that many single-unit pickups.
     */
    method DropItems(pos: Cell, inv: Inventory, roll: int)
      requires pos in tileData && tileData[pos].tile.dropItem != None ==> resourceTilemap != null
      modifies this, inv
      ensures SameSetup() && tileData == old(tileData)
      ensures pos !in old(tileData) ==> dropped == old(dropped) && unchanged(inv)
      ensures pos in old(tileData) ==> DroppedFrom(old(tileData[pos].tile), roll, inv)
    {
      if pos !in tileData {
        return;
      }
      var data := tileData[pos];
      if data.tile.dropItem == None {
        return;
      }
      var it := data.tile.dropItem.value;
      var amount := RandomRange(data.tile.minDropAmount, data.tile.maxDropAmount + 1, roll);
      if droppedItemPrefab == None {
        var added := inv.AddItem(data.tile.dropItem, amount);
        return;
      }
      var hasComponent := droppedItemPrefab.value.hasDroppedItem;
      var i := 0;
      while i < amount
        invariant 0 <= i <= (if amount > 0 then amount else 0)
        invariant SameSetup() && tileData == old(tileData)
        invariant hasComponent ==> dropped == old(dropped) + Singles(it, i) && unchanged(inv)
        invariant !hasComponent ==>
          && dropped == old(dropped)
          && inv.slots == AddUnits(old(inv.slots), it, i)
          && inv.additionalSlots == old(inv.additionalSlots)
          && inv.changes == old(inv.changes) + i
      {
        if !hasComponent {
          var added := inv.AddItem(data.tile.dropItem, 1);
        } else {
          assert Singles(it, i + 1) == Singles(it, i) + [Pickup(it, 1)];
          dropped := dropped + [Pickup(it, 1)];
        }
        i := i + 1;
      }
    }

    /**
      `TakeDamage(pos, damage)`: when initialised and tracking `pos`, lower its health by
      `damage`; at 0 or below drop its items, erase the tile and stop tracking it. The
      persistence key is computed but never written.
     */
    method TakeDamage(pos: Cell, damage: real, inv: Inventory, roll: int)
      requires isInitialized ==> resourceTilemap != null
      modifies this, resourceTilemap, inv
      ensures SameSetup()
      ensures !old(isInitialized) || pos !in old(tileData) ==>
        unchanged(this) && unchanged(inv) && (resourceTilemap != null ==> unchanged(resourceTilemap))
      ensures old(isInitialized) && pos in old(tileData) ==>
        var d := old(tileData[pos]);
        var health := d.currentHealth - damage;
        if health > 0.0 then
          && tileData == old(tileData)[pos := d.(currentHealth := health)]
          && dropped == old(dropped) && unchanged(resourceTilemap) && unchanged(inv)
        else
          Removed(pos) && DroppedFrom(d.tile, roll, inv)
      ensures old(Valid()) ==> Valid()
    {
      if !isInitialized {
        return;
      }
      ghost var wasValid := Valid();
      if pos in tileData {
        var data := tileData[pos];
        data := data.(currentHealth := data.currentHealth - damage);
        if wasValid {
          DamageKeepsConsistent(tileData, resourceTilemap.tiles, pos, data.currentHealth);
        }
        tileData := tileData[pos := data];
        if data.currentHealth <= 0.0 {
          DropItems(pos, inv, roll);
          ghost var data1, tiles1 := tileData, resourceTilemap.tiles;
          resourceTilemap.ClearTile(pos);
          tileData := tileData - {pos};
          var key := TileKey(pos);
          if wasValid {
            RemovalKeepsConsistent(data1, tiles1, pos);
          }
        }
      }
    }

    /**
      `DestroyTile(pos)`: when initialised and tracking `pos`, and a destructible resource
      tile is painted there, drop its items, erase it and stop tracking it, whatever its health.
     */
    method DestroyTile(pos: Cell, inv: Inventory, roll: int)
      requires isInitialized ==> resourceTilemap != null
      modifies this, resourceTilemap, inv
      ensures SameSetup()
      ensures old(isInitialized) && pos in old(tileData) && old(DestructibleAt(resourceTilemap.tiles, pos)) ==>
        Removed(pos) && DroppedFrom(old(tileData[pos].tile), roll, inv)
      ensures !(old(isInitialized) && pos in old(tileData) && old(DestructibleAt(resourceTilemap.tiles, pos))) ==>
        unchanged(this) && unchanged(inv) && (resourceTilemap != null ==> unchanged(resourceTilemap))
      ensures old(Valid()) ==> Valid()
      ensures old(Valid()) && old(isInitialized) && pos in old(tileData) ==> pos !in tileData && IsPositionEmpty(pos)
    {
      if !isInitialized || pos !in tileData {
        return;
      }
      ghost var wasValid := Valid();
      var tile := ResourceTileAt(resourceTilemap.tiles, pos);
      if tile != None && tile.value.isDestructible {
        DropItems(pos, inv, roll);
        ghost var data1, tiles1 := tileData, resourceTilemap.tiles;
        resourceTilemap.ClearTile(pos);
        tileData := tileData - {pos};
        var key := TileKey(pos);
        if wasValid {
          RemovalKeepsConsistent(data1, tiles1, pos);
        }
      }
    }

    /** `IsPositionEmpty`: false before initialisation, else whether no tile at all is painted at the cell. */
    function IsPositionEmpty(c: Cell): (r: bool)
      requires isInitialized ==> resourceTilemap != null
      reads this, resourceTilemap
      ensures r ==> isInitialized
      ensures isInitialized ==> (r <==> c !in resourceTilemap.tiles)
    {
      if !isInitialized then false else c !in resourceTilemap.tiles
    }

    /** `GetResourceType`: the painted resource tile's type, wood when uninitialised or when there is none. */
    function GetResourceType(c: Cell): (r: ResourceType)
      requires isInitialized ==> resourceTilemap != null
      reads this, resourceTilemap
      ensures isInitialized && ResourceTileAt(resourceTilemap.tiles, c).Some? ==>
        r == ResourceTileAt(resourceTilemap.tiles, c).value.resourceType
      ensures !isInitialized || ResourceTileAt(resourceTilemap.tiles, c).None? ==> r == Wood
    {
      if !isInitialized then Wood
      else
        var tile := ResourceTileAt(resourceTilemap.tiles, c);
        if tile != None then tile.value.resourceType else Wood
    }
  }
}
