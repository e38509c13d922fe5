/** The bot-inventory hook: after the host has added an item's required
    children, a managed kit additionally receives its packed contents. The
    host's own call is an input: `itemToAddChildrenTo` is the array as the
    host left it. */
module CustomBotLootGenerator {
  import opened Wrappers
  import opened Host
  import opened MedkitTpl
  import opened ItemCfg
  import opened GridHelper
  import MedkitHelper

  /** The private `addMedkitLoot` of the generator: nothing on packing
      failure, otherwise exactly the records the packer appended to an empty
      array. */
  function AddMedkitLoot(mode: Mode, cfg: seq<CfgEntry>, medkitId: string, itemTpl: string, ids: seq<string>)
    : (r: Result<seq<Item>, MedkitHelper.HookError>)
    ensures r.Failure? <==> ResolveConfig(mode, cfg, itemTpl).None?
    ensures r.Success? ==>
      var packed := AddItemsToGridSlots(ResolveConfig(mode, cfg, itemTpl).value, medkitId, [], ids);
      && (!packed.ok ==> r.value == [])
      && (packed.ok ==> r.value == packed.items)
  {
    MedkitHelper.AddMedkitLoot(mode, cfg, medkitId, itemTpl, ids)
  }

  /** The part of `addRequiredChildItemsToParent` after the host call: the
      array is left as the host produced it unless the template is managed
      in `mode`; then the host's records stay untouched as a prefix and the
      kit's children, parented to the first record, follow. */
  function AddRequiredChildItemsToParent(
    mode: Mode, cfg: seq<CfgEntry>, itemToAddTemplateId: string, itemToAddChildrenTo: seq<Item>, ids: seq<string>)
    : (r: Result<seq<Item>, MedkitHelper.HookError>)
    ensures !IsManaged(mode, itemToAddTemplateId) ==> r == Success(itemToAddChildrenTo)
    ensures r.Success? ==>
      |itemToAddChildrenTo| <= |r.value| && r.value[..|itemToAddChildrenTo|] == itemToAddChildrenTo
    ensures r.Success? && |r.value| > |itemToAddChildrenTo| ==>
      && |itemToAddChildrenTo| > 0
      && forall i :: |itemToAddChildrenTo| <= i < |r.value| ==> r.value[i].parentId == itemToAddChildrenTo[0].id
  {
    var itemTpl := itemToAddTemplateId;
    if IsManaged(mode, itemTpl) then
      if |itemToAddChildrenTo| == 0 then Failure(MedkitHelper.MissingRootItem)
      else
        var kids :- AddMedkitLoot(mode, cfg, itemToAddChildrenTo[0].id, itemTpl, ids);
        var all := itemToAddChildrenTo + kids;
        assert all[..|itemToAddChildrenTo|] == itemToAddChildrenTo;
        assert forall i :: |itemToAddChildrenTo| <= i < |all| ==> all[i] == kids[i - |itemToAddChildrenTo|];
        Success(all)
    else Success(itemToAddChildrenTo)
  }

  /** The bot hook and the map-loot hook inject the same records for the
      same template and array. */
  lemma HooksAgree(mode: Mode, cfg: seq<CfgEntry>, tpl: string, arr: seq<Item>, ids: seq<string>)
    ensures AddRequiredChildItemsToParent(mode, cfg, tpl, arr, ids) == MedkitHelper.ConditionallyAddMedkitLoot(mode, cfg, tpl, arr, ids)
  {
  }
}
