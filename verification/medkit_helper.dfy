/** The loot-injection hook shared by the map loot generators: when a
    generated container is a managed kit, its bundled contents are packed
    and appended after everything the host produced. */
module MedkitHelper {
  import opened Wrappers
  import opened Host
  import opened MedkitTpl
  import opened ItemCfg
  import opened GridHelper
  import opened Strings

  /** Ways the hook fails where the source dereferences `undefined`. */
  datatype HookError =
    | MissingRootItem           // the item array has no root record to read the id from
    | NoConfigFor(tpl: string)  // the id resolves to no record of the table

  /** `addMedkitLoot`: the packed children of a kit instance, not including
      the kit itself, or nothing if packing failed. */
  function AddMedkitLoot(mode: Mode, cfg: seq<CfgEntry>, medkitId: string, itemTpl: string, ids: seq<string>)
    : (r: Result<seq<Item>, HookError>)
    ensures r.Failure? <==> ResolveConfig(mode, cfg, itemTpl).None?
    ensures r.Failure? ==> r.error == NoConfigFor(itemTpl)
    ensures r.Success? ==> forall i :: 0 <= i < |r.value| ==> r.value[i].parentId == medkitId
    ensures r.Success? && medkitId !in ids ==> forall i :: 0 <= i < |r.value| ==> r.value[i].id != medkitId
    ensures r.Success? ==>
      var bundled := ResolveConfig(mode, cfg, itemTpl).value.BundledItems();
      && (|ids| < |bundled| ==> r.value == [])
      && (|ids| >= |bundled| ==>
            && |r.value| == |bundled|
            && forall k :: 0 <= k < |bundled| ==> r.value[k].tpl == bundled[k] && r.value[k].id == ids[k])
  {
    match ResolveConfig(mode, cfg, itemTpl)
    case None => Failure(NoConfigFor(itemTpl))
    case Some(details) =>
      var packed := AddItemsToGridSlots(details, medkitId, [], ids);
      if !packed.ok then Success([]) else Success(packed.items)
  }

  /** `conditionallyAddMedkitLoot`: the item array after the hook. Unmanaged
      ids leave it as it is; managed ids keep it as a prefix and append only
      the kit's packed children, parented to the root record. */
  function ConditionallyAddMedkitLoot(mode: Mode, cfg: seq<CfgEntry>, itemTpl: string, itemArray: seq<Item>, ids: seq<string>)
    : (r: Result<seq<Item>, HookError>)
    ensures !IsManaged(mode, itemTpl) ==> r == Success(itemArray)
    ensures IsManaged(mode, itemTpl) && |itemArray| == 0 ==> r == Failure(MissingRootItem)
    ensures IsManaged(mode, itemTpl) && |itemArray| > 0 ==>
      (r.Failure? <==> ResolveConfig(mode, cfg, itemTpl).None?)
    ensures r.Success? ==> |itemArray| <= |r.value| && r.value[..|itemArray|] == itemArray
    ensures r.Success? && |r.value| > |itemArray| ==>
      && |itemArray| > 0
      && forall i :: |itemArray| <= i < |r.value| ==> r.value[i].parentId == itemArray[0].id
    ensures r.Success? && IsManaged(mode, itemTpl) ==>
      r.value[|itemArray|..] == AddMedkitLoot(mode, cfg, itemArray[0].id, itemTpl, ids).value
  {
    if IsManaged(mode, itemTpl) then
      if |itemArray| == 0 then Failure(MissingRootItem)
      else
        var kids :- AddMedkitLoot(mode, cfg, itemArray[0].id, itemTpl, ids);
        assert forall i :: |itemArray| <= i < |itemArray + kids| ==> (itemArray + kids)[i] == kids[i - |itemArray|];
        assert (itemArray + kids)[..|itemArray|] == itemArray;
        assert (itemArray + kids)[|itemArray|..] == kids;
        Success(itemArray + kids)
    else Success(itemArray)
  }

  /** The IFAK generated in additive mode: its three bundled items are
      appended after the root, two in the first grid and one in the second. */
  lemma IfakInjectionScenario(root: Item, ids: seq<string>)
    requires |ids| >= 3
    ensures var r := ConditionallyAddMedkitLoot(Additive, ShippedCfg, CustomIfak, [root], ids);
      && r.Success? && |r.value| == 4 && r.value[0] == root
      && r.value[1] == Item(ids[0], ArmyBandage, root.id, "CustomIFAKGrid0", None)
      && r.value[2] == Item(ids[1], CalokB, root.id, "CustomIFAKGrid0", None)
      && r.value[3] == Item(ids[2], CatTourniquet, root.id, "CustomIFAKGrid1", None)
  {
    var kids := Children(IfakInfo, root.id, [ids[0], ids[1], ids[2]]);
    IfakLoot(root.id, ids);
    IfakChildren(root.id, ids[0], ids[1], ids[2]);
    assert IsManaged(Additive, CustomIfak);
    assert ConditionallyAddMedkitLoot(Additive, ShippedCfg, CustomIfak, [root], ids) == Success([root] + kids);
  }

  /** Resolving and packing the IFAK in additive mode. */
  lemma IfakLoot(medkitId: string, ids: seq<string>)
    requires |ids| >= 3
    ensures AddMedkitLoot(Additive, ShippedCfg, medkitId, CustomIfak, ids) == Success(Children(IfakInfo, medkitId, [ids[0], ids[1], ids[2]]))
  {
    assert ids[..3] == [ids[0], ids[1], ids[2]];
    ShippedResolution(Additive, 0);
    assert ResolveConfig(Additive, ShippedCfg, CustomIfak) == Some(IfakInfo);
    assert |IfakInfo.BundledItems()| == 3;
  }

  /** The grid layout of the IFAK's three bundled items. */
  lemma IfakChildren(parentId: string, a: string, b: string, c: string)
    ensures Children(IfakInfo, parentId, [a, b, c]) == [
      Item(a, ArmyBandage, parentId, "CustomIFAKGrid0", None),
      Item(b, CalokB, parentId, "CustomIFAKGrid0", None),
      Item(c, CatTourniquet, parentId, "CustomIFAKGrid1", None)]
  {
    var counts := GetGridSlotCounts(IfakInfo.grids);
    assert counts == [2, 1];
    var ps := Placements(counts, 3, 0, 0);
    assert ps == [Placement(0, 0), Placement(0, 1), Placement(1, 0)];
    assert GetGridNameId(IfakInfo, 0) == "CustomIFAKGrid0";
    assert GetGridNameId(IfakInfo, 1) == "CustomIFAKGrid1";
  }

  /** A managed kit without a record (here the car first-aid kit) reaches
      the failed lookup in either mode. */
  lemma UnconfiguredKitFails(mode: Mode, root: Item, ids: seq<string>)
    ensures ConditionallyAddMedkitLoot(mode, ShippedCfg, if mode.Replace? then OriginalCarAfak else CustomCarAfak, [root], ids).Failure?
  {
    ShippedUnconfiguredKits(mode, OriginalCarAfak);
  }
}
