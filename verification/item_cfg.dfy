/** The content table: one configuration record per first-aid kit, keyed by
    the kit's original template id, plus the identity resolution that maps a
    live id back to its record in either mode. Host enumeration values
    (item templates, currencies, traders, base classes) are symbolic ids. */
module ItemCfg {
  import opened Wrappers
  import opened Host
  import opened MedkitTpl

  datatype GridSize = GridSize(cellsH: int, cellsV: int)

  datatype LocaleText = LocaleText(name: string, shortName: string, description: string)

  /** Loyalty level needed for the currency offer, and for the barter offer. */
  datatype LoyalLevel = LoyalLevel(buy: int, barter: Option<int>)

  /** One kit's configuration (`ItemCfgInfo`). */
  datatype ItemCfgInfo = ItemCfgInfo(
    idForNewItem: string,
    price: int,
    locale: LocaleText,
    allowedItems: seq<string>,
    grids: seq<GridSize>,
    weight: real,
    bundled: Option<seq<string>>,
    bundlePrice: Option<int>,
    currency: string,
    customBarter: Option<seq<seq<SchemeItem>>>,
    soldBy: string,
    loyalLevel: LoyalLevel)
  {
    /** The bundled list; a missing list iterates as empty. */
    function BundledItems(): seq<string> {
      bundled.GetOr([])
    }
  }

  /** One key of the table with its record; the table is a sequence because
      the startup pass walks the keys in declaration order. */
  datatype CfgEntry = CfgEntry(key: string, info: ItemCfgInfo)

  predicate KeysDistinct(cfg: seq<CfgEntry>) {
    forall i, j :: 0 <= i < j < |cfg| ==> cfg[i].key != cfg[j].key
  }

  /** `itemCfg[key]`. */
  function Lookup(cfg: seq<CfgEntry>, key: string): (r: Option<ItemCfgInfo>)
    ensures r.None? <==> forall i :: 0 <= i < |cfg| ==> cfg[i].key != key
    ensures r.Some? ==> exists i :: 0 <= i < |cfg| && cfg[i].key == key && cfg[i].info == r.value
  {
    if |cfg| == 0 then None
    else if cfg[0].key == key then Some(cfg[0].info)
    else
      var r := Lookup(cfg[1..], key);
      assert r.Some? ==> exists i :: 0 <= i < |cfg[1..]| && cfg[1..][i].key == key && cfg[1..][i].info == r.value;
      assert r.Some? ==> exists i :: 0 <= i < |cfg| && cfg[i].key == key && cfg[i].info == r.value by {
        if r.Some? {
          var i :| 0 <= i < |cfg[1..]| && cfg[1..][i].key == key && cfg[1..][i].info == r.value;
          assert cfg[i + 1] == cfg[1..][i];
        }
      }
      r
  }

  /** With distinct keys, each entry is what its key looks up. */
  lemma {:induction false} LookupFindsEntry(cfg: seq<CfgEntry>, i: nat)
    requires KeysDistinct(cfg) && i < |cfg|
    ensures Lookup(cfg, cfg[i].key) == Some(cfg[i].info)
  {
    if i > 0 {
      assert cfg[0].key != cfg[i].key;
      assert cfg[1..][i - 1] == cfg[i];
      LookupFindsEntry(cfg[1..], i - 1);
    }
  }

  /** The id a kit lives under in `mode` (`idToUse`). */
  function CanonicalId(mode: Mode, e: CfgEntry): string {
    if mode.Replace? then e.key else e.info.idForNewItem
  }

  /** The record for a live id: looked up directly in replace mode, through
      the custom-to-original map in additive mode. */
  function ResolveConfig(mode: Mode, cfg: seq<CfgEntry>, tpl: string): (r: Option<ItemCfgInfo>)
    ensures mode.Replace? ==> (r.None? <==> forall i :: 0 <= i < |cfg| ==> cfg[i].key != tpl)
    ensures mode.Additive? ==>
      (r.None? <==> !IsCustomMedkitItemTpl(tpl) || forall i :: 0 <= i < |cfg| ==> cfg[i].key != CustomToOriginal[tpl])
    ensures r.Some? ==>
      exists i :: (0 <= i < |cfg| && cfg[i].info == r.value
        && (mode.Replace? ==> cfg[i].key == tpl)
        && (mode.Additive? ==> OriginalOf(tpl) == Some(cfg[i].key)))
  {
    if mode.Replace? then Lookup(cfg, tpl)
    else match OriginalOf(tpl)
      case None => None
      case Some(original) => Lookup(cfg, original)
  }

  /** Identity resolution round-trips: the id a kit lives under resolves to
      its own record, provided the custom id maps back to the key. */
  lemma ResolveCanonicalId(mode: Mode, cfg: seq<CfgEntry>, i: nat)
    requires KeysDistinct(cfg) && i < |cfg|
    requires mode.Additive? ==> OriginalOf(cfg[i].info.idForNewItem) == Some(cfg[i].key)
    ensures ResolveConfig(mode, cfg, CanonicalId(mode, cfg[i])) == Some(cfg[i].info)
  {
    LookupFindsEntry(cfg, i);
  }

  // Symbolic host ids.
  const ArmyBandage := "ItemTpl.MEDICAL_ARMY_BANDAGE"
  const AsepticBandage := "ItemTpl.MEDICAL_ASEPTIC_BANDAGE"
  const EsmarchTourniquet := "ItemTpl.MEDICAL_ESMARCH_TOURNIQUET"
  const CatTourniquet := "ItemTpl.MEDICAL_CAT_HEMOSTATIC_TOURNIQUET"
  const CalokB := "ItemTpl.MEDICAL_CALOKB_HEMOSTATIC_APPLICATOR"
  const ImmobilizingSplint := "ItemTpl.MEDICAL_IMMOBILIZING_SPLINT"
  const AluminumSplint := "ItemTpl.MEDICAL_ALUMINUM_SPLINT"
  const Analgin := "ItemTpl.DRUGS_ANALGIN_PAINKILLERS"
  const GoldenStarBalm := "ItemTpl.DRUGS_GOLDEN_STAR_BALM"
  const VaselineBalm := "ItemTpl.DRUGS_VASELINE_BALM"
  const Morphine := "ItemTpl.DRUGS_MORPHINE_INJECTOR"
  const Ai2 := "ItemTpl.MEDKIT_AI2"
  const EmergencyWater := "ItemTpl.DRINK_EMERGENCY_WATER_RATION"
  const StimulatorClass := "BaseClasses.STIMULATOR"
  const SalineSolution := "ItemTpl.BARTER_BOTTLE_OF_SALINE_SOLUTION"
  const Roubles := "Money.ROUBLES"
  const Dollars := "Money.DOLLARS"
  const Therapist := "Traders.THERAPIST"
  const Peacekeeper := "Traders.PEACEKEEPER"

  const Bandages: seq<string> := [ArmyBandage, AsepticBandage]
  const Tourniquets: seq<string> := [EsmarchTourniquet, CatTourniquet]
  const Hemostatic: seq<string> := [CalokB]
  const Splints: seq<string> := [ImmobilizingSplint, AluminumSplint]
  const Misc: seq<string> := [Analgin, GoldenStarBalm, VaselineBalm, Morphine, Ai2, EmergencyWater, StimulatorClass]

  /** Everything a kit's grids accept, built by composing the groups. */
  const AllItems: seq<string> := Bandages + Tourniquets + Hemostatic + Splints + Misc

  const KitDescriptionTail := " pouch that you can fill with your choice of first aid equipment.\nAccepts bandages, tourniquets/CALOK-B, splints, injectors, AI-2, balms, analgin, and emergency water."

  const IfakInfo := ItemCfgInfo(
    idForNewItem := CustomIfak,
    price := 16000,
    locale := LocaleText("Custom IFAK", "C-IFAK", "An IFAK" + KitDescriptionTail),
    allowedItems := AllItems,
    grids := [GridSize(cellsH := 1, cellsV := 2), GridSize(cellsH := 1, cellsV := 1)],
    weight := 0.2,
    bundled := Some([ArmyBandage, CalokB, CatTourniquet]),
    bundlePrice := Some(50000),
    currency := Roubles,
    customBarter := Some([[SchemeItem(SalineSolution, 2)]]),
    soldBy := Therapist,
    loyalLevel := LoyalLevel(3, Some(2)))

  const AfakInfo := ItemCfgInfo(
    idForNewItem := CustomAfak,
    price := 28000,
    locale := LocaleText("Custom AFAK", "C-AFAK", "An AFAK" + KitDescriptionTail),
    allowedItems := AllItems,
    grids := [GridSize(cellsH := 1, cellsV := 2), GridSize(cellsH := 1, cellsV := 2)],
    weight := 0.22,
    bundled := Some([ArmyBandage, ImmobilizingSplint, CalokB, CatTourniquet]),
    bundlePrice := Some(549),
    currency := Dollars,
    customBarter := None,
    soldBy := Peacekeeper,
    loyalLevel := LoyalLevel(4, Some(2)))

  /** The shipped table, keyed by the original template ids of the kits. */
  const ShippedCfg: seq<CfgEntry> := [CfgEntry(OriginalIfak, IfakInfo), CfgEntry(OriginalAfak, AfakInfo)]

  /** The groups partition the allowed list, and every bundled item of
      every shipped kit is allowed in its grids. */
  lemma ShippedBundledItemsAllowed()
    ensures forall x :: x in AllItems <==> x in Bandages || x in Tourniquets || x in Hemostatic || x in Splints || x in Misc
    ensures forall i, x :: 0 <= i < |ShippedCfg| && x in ShippedCfg[i].info.BundledItems() ==> x in ShippedCfg[i].info.allowedItems
  {
  }

  /** The shipped keys are distinct, each custom id maps back to its key, and
      the two kits are the only original ids with a record. */
  lemma ShippedIdentities()
    ensures KeysDistinct(ShippedCfg)
    ensures forall i :: 0 <= i < |ShippedCfg| ==> OriginalOf(ShippedCfg[i].info.idForNewItem) == Some(ShippedCfg[i].key)
    ensures forall i :: 0 <= i < |ShippedCfg| ==> IsOriginalMedkitItemTpl(ShippedCfg[i].key)
  {
  }

  /** Identity resolution over the shipped table, in both modes. */
  lemma ShippedResolution(mode: Mode, i: nat)
    requires i < |ShippedCfg|
    ensures ResolveConfig(mode, ShippedCfg, CanonicalId(mode, ShippedCfg[i])) == Some(ShippedCfg[i].info)
  {
    ShippedIdentities();
    ResolveCanonicalId(mode, ShippedCfg, i);
  }

  /** Three of the five managed kits have no record: resolving them in
      either mode finds nothing. */
  lemma ShippedUnconfiguredKits(mode: Mode, original: string)
    requires original in [OriginalCarAfak, OriginalSalewa, OriginalGrizzly]
    ensures ResolveConfig(mode, ShippedCfg, if mode.Replace? then original else CustomOf(original).value).None?
  {
  }

  /** Both kits price the currency offer; only the IFAK has a barter offer,
      and it also carries a barter loyalty level. */
  lemma ShippedEconomics()
    ensures forall i :: 0 <= i < |ShippedCfg| ==> ShippedCfg[i].info.bundlePrice.Some?
    ensures IfakInfo.customBarter.Some? && IfakInfo.loyalLevel.barter.Some?
    ensures AfakInfo.customBarter.None?
  {
  }
}
