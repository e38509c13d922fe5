/** The grid packer: lays a kit's bundled items out over its grids, filling
    grid 0 before grid 1 and so on, and emits one child record per item.
    The loop of the source is `Placements`; `Locate` states the same layout
    in closed form through prefix sums of the grid capacities. */
module GridHelper {
  import opened Wrappers
  import opened Strings
  import opened Host
  import opened ItemCfg

  function Capacity(g: GridSize): int {
    g.cellsH * g.cellsV
  }

  /** Number of slots of each grid, in grid order. */
  function GetGridSlotCounts(grids: seq<GridSize>): (counts: seq<int>)
    ensures |counts| == |grids|
    ensures forall i :: 0 <= i < |grids| ==> counts[i] == grids[i].cellsH * grids[i].cellsV
  {
    if |grids| == 0 then []
    else GetGridSlotCounts(grids[..|grids| - 1]) + [Capacity(grids[|grids| - 1])]
  }

  /** The name of grid `idx` of a kit: `<idForNewItem>Grid<idx>`. */
  function GetGridNameId(details: ItemCfgInfo, idx: nat): (name: string)
    ensures |details.idForNewItem + "Grid"| < |name|
    ensures name[..|details.idForNewItem + "Grid"|] == details.idForNewItem + "Grid"
    ensures AllDigits(name[|details.idForNewItem + "Grid"|..])
  {
    var prefix := details.idForNewItem + "Grid";
    var name := prefix + NatToString(idx);
    assert name[..|prefix|] == prefix && name[|prefix|..] == NatToString(idx);
    name
  }

  /** Reads the grid index back out of a grid name of this kit. */
  function ParseGridIndex(details: ItemCfgInfo, name: string): Option<nat> {
    var prefix := details.idForNewItem + "Grid";
    if |prefix| < |name| && name[..|prefix|] == prefix && AllDigits(name[|prefix|..])
    then Some(ParseNat(name[|prefix|..]))
    else None
  }

  /** A grid name gives back the index it was made from. */
  lemma GridNameIdRoundTrip(details: ItemCfgInfo, idx: nat)
    ensures ParseGridIndex(details, GetGridNameId(details, idx)) == Some(idx)
  {
    var prefix := details.idForNewItem + "Grid";
    var name := GetGridNameId(details, idx);
    assert name[..|prefix|] == prefix;
    assert name[|prefix|..] == NatToString(idx);
    ParseNatToString(idx);
  }

  /** Distinct grids of a kit get distinct names. */
  lemma GridNameIdInjective(details: ItemCfgInfo, i: nat, j: nat)
    ensures GetGridNameId(details, i) == GetGridNameId(details, j) ==> i == j
  {
    GridNameIdRoundTrip(details, i);
    GridNameIdRoundTrip(details, j);
  }

  predicate AllPositive(counts: seq<int>) {
    forall i :: 0 <= i < |counts| ==> counts[i] >= 1
  }

  /** Total capacity of the first `g` grids. */
  function PrefixSum(counts: seq<int>, g: nat): int
    requires g <= |counts|
    decreases g
  {
    if g == 0 then 0 else counts[0] + PrefixSum(counts[1..], g - 1)
  }

  function Sum(counts: seq<int>): int {
    PrefixSum(counts, |counts|)
  }

  lemma {:induction false} PrefixSumNonNegative(counts: seq<int>, g: nat)
    requires g <= |counts| && AllPositive(counts)
    ensures PrefixSum(counts, g) >= g
    decreases g
  {
    if g > 0 {
      PrefixSumNonNegative(counts[1..], g - 1);
    }
  }

  /** Where one item goes: a grid index and a position inside that grid. */
  datatype Placement = Placement(grid: nat, slot: nat)

  /** The packing loop: starting in grid `g` with slot counter `s`, the
      places of the next `n` items. After each item the counter moves to the
      next grid when it reached the grid's last slot, otherwise it steps;
      past the last grid no count exists and it only ever steps. */
  function Placements(counts: seq<int>, n: nat, g: nat, s: nat): (ps: seq<Placement>)
    ensures |ps| == n
    decreases n
  {
    if n == 0 then []
    else if g < |counts| && s == counts[g] - 1 then [Placement(g, s)] + Placements(counts, n - 1, g + 1, 0)
    else [Placement(g, s)] + Placements(counts, n - 1, g, s + 1)
  }

  /** Strict in-order fill in closed form: item `k` lands in the first grid
      whose cumulative capacity exceeds `k`, at offset `k` minus the capacity
      before that grid; items beyond the total land past the last grid. */
  function Locate(counts: seq<int>, k: nat): (p: Placement)
    requires AllPositive(counts)
    ensures p.grid <= |counts|
    ensures PrefixSum(counts, p.grid) + p.slot == k
    ensures p.grid < |counts| ==> p.slot < counts[p.grid]
    ensures p.grid == |counts| <==> k >= Sum(counts)
    decreases |counts|
  {
    if |counts| == 0 then Placement(0, k)
    else if k < counts[0] then
      PrefixSumNonNegative(counts[1..], |counts| - 1);
      Placement(0, k)
    else
      var p := Locate(counts[1..], k - counts[0]);
      Placement(p.grid + 1, p.slot)
  }

  function Shift(p: Placement, g: nat): Placement {
    Placement(p.grid + g, p.slot)
  }

  /** The loop, started in any consistent state, follows the closed form
      over the remaining grids. */
  lemma {:induction false} PlacementsFollowLocate(counts: seq<int>, n: nat, g: nat, s: nat)
    requires AllPositive(counts)
    requires g <= |counts|
    requires g < |counts| ==> s < counts[g]
    ensures forall j :: 0 <= j < n ==> Placements(counts, n, g, s)[j] == Shift(Locate(counts[g..], s + j), g)
    decreases n
  {
    if n > 0 {
      var ps := Placements(counts, n, g, s);
      var rest := counts[g..];
      assert AllPositive(rest);
      if g < |counts| && s == counts[g] - 1 {
        PlacementsFollowLocate(counts, n - 1, g + 1, 0);
        assert rest[1..] == counts[g + 1..];
        forall j | 0 <= j < n
          ensures ps[j] == Shift(Locate(rest, s + j), g)
        {
          if j > 0 {
            assert ps[j] == Placements(counts, n - 1, g + 1, 0)[j - 1];
            assert s + j - rest[0] == j - 1;
          }
        }
      } else {
        PlacementsFollowLocate(counts, n - 1, g, s + 1);
        forall j | 0 <= j < n
          ensures ps[j] == Shift(Locate(rest, s + j), g)
        {
          if j > 0 {
            assert ps[j] == Placements(counts, n - 1, g, s + 1)[j - 1];
          }
        }
      }
    }
  }

  /** From the initial state the loop places item `k` exactly at `Locate`. */
  lemma PackingFillsInOrder(counts: seq<int>, n: nat)
    requires AllPositive(counts)
    ensures forall k :: 0 <= k < n ==> Placements(counts, n, 0, 0)[k] == Locate(counts, k)
  {
    PlacementsFollowLocate(counts, n, 0, 0);
    assert counts[0..] == counts;
  }

  /** Along the loop the grid index never decreases and never skips a grid. */
  lemma {:induction false} PlacementsMonotone(counts: seq<int>, n: nat, g: nat, s: nat)
    ensures forall j :: 0 <= j < n ==> Placements(counts, n, g, s)[j].grid >= g
    ensures forall i, j :: 0 <= i <= j < n ==> Placements(counts, n, g, s)[i].grid <= Placements(counts, n, g, s)[j].grid
    ensures forall j :: 0 <= j < n - 1 ==> Placements(counts, n, g, s)[j + 1].grid <= Placements(counts, n, g, s)[j].grid + 1
    decreases n
  {
    if n > 0 {
      var ps := Placements(counts, n, g, s);
      if g < |counts| && s == counts[g] - 1 {
        PlacementsMonotone(counts, n - 1, g + 1, 0);
      } else {
        PlacementsMonotone(counts, n - 1, g, s + 1);
      }
      assert forall j :: 1 <= j < n ==> ps[j] == ps[1..][j - 1];
    }
  }

  /** As written, a grid with no slots is never left again: once the loop
      reaches it, every remaining item is written into it. */
  lemma {:induction false} EmptyGridAbsorbsRest(counts: seq<int>, n: nat, g: nat, s: nat)
    requires g < |counts| && counts[g] <= 0
    ensures forall j :: 0 <= j < n ==> Placements(counts, n, g, s)[j].grid == g
    decreases n
  {
    if n > 0 {
      var ps := Placements(counts, n, g, s);
      EmptyGridAbsorbsRest(counts, n - 1, g, s + 1);
      assert forall j :: 1 <= j < n ==> ps[j] == ps[1..][j - 1];
    }
  }

  /** The child records for the first `|ids|` bundled items: item `k` gets
      unique id `ids[k]`, template `bundled[k]`, parent `parentId` and the
      name of the grid the loop places it in. */
  function Children(details: ItemCfgInfo, parentId: string, ids: seq<string>): (kids: seq<Item>)
    requires |ids| <= |details.BundledItems()|
    ensures |kids| == |ids|
    ensures forall k :: 0 <= k < |ids| ==>
      && kids[k].id == ids[k]
      && kids[k].tpl == details.BundledItems()[k]
      && kids[k].parentId == parentId
      && kids[k].upd.None?
  {
    var ps := Placements(GetGridSlotCounts(details.grids), |ids|, 0, 0);
    seq(|ids|, k requires 0 <= k < |ids| =>
      Item(ids[k], details.BundledItems()[k], parentId, GetGridNameId(details, ps[k].grid), None))
  }

  /** Whether packing completed, and the item array afterwards. */
  datatype PackResult = PackResult(ok: bool, items: seq<Item>)

  /** `addItemsToGridSlots`: appends one child record per bundled item to
      `items`. Fresh ids come from the supply `ids`; if it runs out, the
      host id generator has thrown, the records written so far stay, and the
      result is a failure. Running past the last grid is not a failure. */
  function AddItemsToGridSlots(details: ItemCfgInfo, parentId: string, items: seq<Item>, ids: seq<string>): (r: PackResult)
    ensures r.ok <==> |ids| >= |details.BundledItems()|
    ensures |items| <= |r.items| && r.items[..|items|] == items
    ensures |r.items| == |items| + (if r.ok then |details.BundledItems()| else |ids|)
    ensures forall k :: 0 <= k < |r.items| - |items| ==>
      && r.items[|items| + k].id == ids[k]
      && r.items[|items| + k].tpl == details.BundledItems()[k]
      && r.items[|items| + k].parentId == parentId
      && r.items[|items| + k].upd.None?
    ensures details.bundled.None? ==> r == PackResult(true, items)
  {
    var bundled := details.BundledItems();
    var placed := if |ids| < |bundled| then |ids| else |bundled|;
    var kids := Children(details, parentId, ids[..placed]);
    assert (items + kids)[..|items|] == items;
    PackResult(|ids| >= |bundled|, items + kids)
  }

  /** When every grid has a slot, appended record `k` sits in grid
      `Locate(counts, k).grid`: strict in-order fill. */
  lemma AddItemsFillsInOrder(details: ItemCfgInfo, parentId: string, items: seq<Item>, ids: seq<string>)
    requires AllPositive(GetGridSlotCounts(details.grids))
    ensures var r := AddItemsToGridSlots(details, parentId, items, ids);
      forall k :: 0 <= k < |r.items| - |items| ==>
        r.items[|items| + k].slotId == GetGridNameId(details, Locate(GetGridSlotCounts(details.grids), k).grid)
  {
    var bundled := details.BundledItems();
    var placed := if |ids| < |bundled| then |ids| else |bundled|;
    PackingFillsInOrder(GetGridSlotCounts(details.grids), placed);
  }

  /** Overflow is silent: with more bundled items than slots, packing still
      succeeds and every surplus record names the grid one past the last. */
  lemma OverflowIsSilent(details: ItemCfgInfo, parentId: string, items: seq<Item>, ids: seq<string>)
    requires AllPositive(GetGridSlotCounts(details.grids))
    requires |ids| >= |details.BundledItems()| > Sum(GetGridSlotCounts(details.grids))
    ensures var r := AddItemsToGridSlots(details, parentId, items, ids);
      && r.ok
      && forall i :: |items| <= i < |r.items| && i - |items| >= Sum(GetGridSlotCounts(details.grids)) ==>
        r.items[i].slotId == GetGridNameId(details, |details.grids|)
  {
    AddItemsFillsInOrder(details, parentId, items, ids);
    var r := AddItemsToGridSlots(details, parentId, items, ids);
    var counts := GetGridSlotCounts(details.grids);
    forall i | |items| <= i < |r.items| && i - |items| >= Sum(counts)
      ensures r.items[i].slotId == GetGridNameId(details, |details.grids|)
    {
      var k := i - |items|;
      assert r.items[|items| + k].slotId == GetGridNameId(details, Locate(counts, k).grid);
    }
  }

  /** Grid indices along the appended records never decrease. */
  lemma AppendedGridsNondecreasing(details: ItemCfgInfo, parentId: string, items: seq<Item>, ids: seq<string>)
    ensures var r := AddItemsToGridSlots(details, parentId, items, ids);
      && (forall i :: |items| <= i < |r.items| ==> ParseGridIndex(details, r.items[i].slotId).Some?)
      && forall i, j :: |items| <= i <= j < |r.items| ==>
        ParseGridIndex(details, r.items[i].slotId).value <= ParseGridIndex(details, r.items[j].slotId).value
  {
    var bundled := details.BundledItems();
    var placed := if |ids| < |bundled| then |ids| else |bundled|;
    var counts := GetGridSlotCounts(details.grids);
    var ps := Placements(counts, placed, 0, 0);
    PlacementsMonotone(counts, placed, 0, 0);
    var r := AddItemsToGridSlots(details, parentId, items, ids);
    forall i | |items| <= i < |r.items|
      ensures ParseGridIndex(details, r.items[i].slotId) == Some(ps[i - |items|].grid)
    {
      GridNameIdRoundTrip(details, ps[i - |items|].grid);
    }
  }

  /** Every shipped kit has slots in every grid and exactly as many slots
      as bundled items, so the shipped table never reaches the overflow. */
  lemma ShippedKitsFitExactly()
    ensures forall i :: 0 <= i < |ShippedCfg| ==>
      && AllPositive(GetGridSlotCounts(ShippedCfg[i].info.grids))
      && Sum(GetGridSlotCounts(ShippedCfg[i].info.grids)) == |ShippedCfg[i].info.BundledItems()|
  {
    assert GetGridSlotCounts(IfakInfo.grids) == [2, 1];
    assert GetGridSlotCounts(AfakInfo.grids) == [2, 2];
    assert Sum([2, 1]) == 3 by { assert [2, 1][1..] == [1]; }
    assert Sum([2, 2]) == 4 by { assert [2, 2][1..] == [2]; }
  }
}
