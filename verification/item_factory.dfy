/** The startup pass: registers each configured kit in the host's content
    tables (`createItems`) and puts filled kits on trader stock
    (`barterChanges`). The host tables are values; each operation returns
    the patched tables, or the error where the source would dereference a
    failed lookup. */
module ItemFactory {
  import opened Wrappers
  import opened Strings
  import opened Host
  import opened MedkitTpl
  import opened ItemCfg
  import opened GridHelper
  import opened BarterId

  /** Handbook category the additive kits are listed under. */
  const HandbookMedkitsId := "5b47574386f77428ca22b338"
  /** Prototype id written on every synthesized grid. */
  const GridProto := "55d329c24bdc2d892f8b4567"
  /** The host container template every kit is cloned from (symbolic). */
  const SiccTpl := "ItemTpl.CONTAINER_SICC"
  /** The host base class of simple containers (symbolic). */
  const SimpleContainerClass := "BaseClasses.SIMPLE_CONTAINER"
  const Hideout := "hideout"
  /** Stack data of every stock entry the additive patch creates. */
  const StockUpd := Upd(true, 999999, 5, 0)

  /** Where the source dereferences a failed lookup, or (for the last two)
      would write an undefined value into a trader table. */
  datatype FactoryError =
    | MissingSicc
    | MissingOriginalItem(id: string)
    | MissingHandbookEntry(id: string)
    | UndecodableBarterId(barterId: string)
    | MissingCustomBarter(barterId: string)
    | MissingBundlePrice(barterId: string)
    | MissingLoyaltyLevel(barterId: string)

  // ---------------------------------------------------------------------
  // createItems

  /** Grid `i` of a kit registered under `idToUse`, as the kit's
      configuration describes it. */
  ghost predicate GridFollowsConfig(grid: Grid, details: ItemCfgInfo, idToUse: string, i: nat)
    requires i < |details.grids|
  {
    && grid.id == GetGridNameId(details, i)
    && grid.name == grid.id
    && grid.parent == idToUse
    && grid.proto == GridProto
    && grid.filters == [GridFilter(details.allowedItems, [])]
    && grid.minCount == 0 && grid.maxCount == 0 && !grid.isSortingTable && grid.maxWeight == 0
    && grid.cellsH == details.grids[i].cellsH
    && grid.cellsV == details.grids[i].cellsV
  }

  /** The grid definitions of the first `n` configured grids, pushed in order. */
  function BuildGrids(details: ItemCfgInfo, idToUse: string, n: nat): (grids: seq<Grid>)
    requires n <= |details.grids|
    ensures |grids| == n
    ensures forall i :: 0 <= i < n ==> GridFollowsConfig(grids[i], details, idToUse, i)
  {
    if n == 0 then []
    else
      var name := GetGridNameId(details, n - 1);
      var size := details.grids[n - 1];
      BuildGrids(details, idToUse, n - 1)
        + [Grid(name, name, idToUse, GridProto, [GridFilter(details.allowedItems, [])], 0, 0, false, 0, size.cellsH, size.cellsV)]
  }

  /** The kit's template: a clone of the SICC container with the kit's id,
      class and name, the original kit's looks and size, the configured
      weight and the configured grids. */
  function NewItem(details: ItemCfgInfo, idToUse: string, original: TemplateItem, sicc: TemplateItem): (t: TemplateItem)
    ensures KitTemplate(t, details, idToUse)
    ensures t.proto == sicc.proto && t.props.others == sicc.props.others
    ensures t.props.prefab == original.props.prefab
    ensures t.props.width == original.props.width && t.props.height == original.props.height
    ensures t.props.itemSound == original.props.itemSound && t.props.backgroundColor == original.props.backgroundColor
  {
    sicc.(
      id := idToUse,
      parent := SimpleContainerClass,
      name := details.idForNewItem,
      props := sicc.props.(
        prefab := original.props.prefab,
        grids := BuildGrids(details, idToUse, |details.grids|),
        weight := details.weight,
        width := original.props.width,
        height := original.props.height,
        itemSound := original.props.itemSound,
        backgroundColor := original.props.backgroundColor))
  }

  /** The parts of a kit's template its configuration decides: its id,
      class, name, weight and grids. */
  ghost predicate KitTemplate(t: TemplateItem, details: ItemCfgInfo, idToUse: string) {
    && t.id == idToUse
    && t.parent == SimpleContainerClass
    && t.name == details.idForNewItem
    && t.props.weight == details.weight
    && |t.props.grids| == |details.grids|
    && forall i :: 0 <= i < |details.grids| ==> GridFollowsConfig(t.props.grids[i], details, idToUse, i)
  }

  /** `findIndex` over the handbook by id; -1 when absent. */
  function FindHandbookIndex(hb: seq<HandbookItem>, id: string): (r: int)
    ensures -1 <= r < |hb|
    ensures r == -1 <==> forall j :: 0 <= j < |hb| ==> hb[j].id != id
    ensures r >= 0 ==> hb[r].id == id && forall j :: 0 <= j < r ==> hb[j].id != id
  {
    if |hb| == 0 then -1
    else if hb[0].id == id then 0
    else
      var r := FindHandbookIndex(hb[1..], id);
      assert forall j :: 1 <= j < |hb| ==> hb[j] == hb[1..][j - 1];
      if r == -1 then -1 else r + 1
  }

  ghost predicate HasHandbookEntry(hb: seq<HandbookItem>, id: string) {
    exists j :: 0 <= j < |hb| && hb[j].id == id
  }

  /** The three locale keys of an additive kit. */
  function LocaleKeys(id: string): set<string> {
    {id + " Name", id + " ShortName", id + " Description"}
  }

  /** One iteration of `createItems`: register `e` in `db`. */
  function CreateItem(mode: Mode, e: CfgEntry, db: Database): (r: Result<Database, FactoryError>)
    ensures r.Failure? <==>
      SiccTpl !in db.items || e.key !in db.items || (mode.Replace? && !HasHandbookEntry(db.handbook, e.key))
    // the item table: the kit's template is written at its live id, nothing else changes
    ensures r.Success? ==>
      var d := r.value;
      var id := CanonicalId(mode, e);
      && d.items.Keys == db.items.Keys + {id}
      && (forall k :: k in db.items && k != id ==> d.items[k] == db.items[k])
      && d.items[id].id == id
      && d.items[id].name == e.info.idForNewItem
      && d.items[id].parent == SimpleContainerClass
      && d.items[id].props.weight == e.info.weight
      && d.items[id].props.prefab == db.items[e.key].props.prefab
      && d.items[id].props.width == db.items[e.key].props.width
      && d.items[id].props.height == db.items[e.key].props.height
      && d.items[id].props.others == db.items[SiccTpl].props.others
      && |d.items[id].props.grids| == |e.info.grids|
      && (forall i :: 0 <= i < |e.info.grids| ==> GridFollowsConfig(d.items[id].props.grids[i], e.info, id, i))
    // the price table: the configured price at the live id
    ensures r.Success? ==>
      var d := r.value;
      var id := CanonicalId(mode, e);
      && d.prices.Keys == db.prices.Keys + {id}
      && d.prices[id] == e.info.price
      && (forall k :: k in db.prices && k != id ==> d.prices[k] == db.prices[k])
    // replace mode: only the price of the first handbook entry of the kit changes; no locale keys
    ensures r.Success? && mode.Replace? ==>
      var d := r.value;
      var at := FindHandbookIndex(db.handbook, e.key);
      && |d.handbook| == |db.handbook|
      && d.handbook[at] == db.handbook[at].(price := e.info.price)
      && (forall j :: 0 <= j < |db.handbook| && j != at ==> d.handbook[j] == db.handbook[j])
      && d.localeEn == db.localeEn
    // additive mode: one new handbook entry and exactly the three locale keys
    ensures r.Success? && mode.Additive? ==>
      var d := r.value;
      var id := e.info.idForNewItem;
      && d.handbook == db.handbook + [HandbookItem(id, HandbookMedkitsId, e.info.price)]
      && d.localeEn.Keys == db.localeEn.Keys + LocaleKeys(id)
      && d.localeEn[id + " Name"] == e.info.locale.name
      && d.localeEn[id + " ShortName"] == e.info.locale.shortName
      && d.localeEn[id + " Description"] == e.info.locale.description
      && (forall k :: k in db.localeEn && k !in LocaleKeys(id) ==> d.localeEn[k] == db.localeEn[k])
  {
    var details := e.info;
    var idToUse := CanonicalId(mode, e);
    if SiccTpl !in db.items then Failure(MissingSicc)
    else if e.key !in db.items then Failure(MissingOriginalItem(e.key))
    else
      var newItem := NewItem(details, idToUse, db.items[e.key], db.items[SiccTpl]);
      var items := db.items[idToUse := newItem];
      var prices := db.prices[idToUse := details.price];
      if mode.Replace? then
        var at := FindHandbookIndex(db.handbook, idToUse);
        if at < 0 then Failure(MissingHandbookEntry(idToUse))
        else Success(Database(items, prices, db.handbook[at := db.handbook[at].(price := details.price)], db.localeEn))
      else
        var locale := db.localeEn
          [idToUse + " Name" := details.locale.name]
          [idToUse + " ShortName" := details.locale.shortName]
          [idToUse + " Description" := details.locale.description];
        Success(Database(items, prices, db.handbook + [HandbookItem(idToUse, HandbookMedkitsId, details.price)], locale))
  }

  /** No two entries of the table live under the same id in `mode`. */
  ghost predicate DistinctLiveIds(mode: Mode, cfg: seq<CfgEntry>) {
    forall i, j :: 0 <= i < j < |cfg| ==> CanonicalId(mode, cfg[i]) != CanonicalId(mode, cfg[j])
  }

  /** `createItems`: registers every entry, in table order. */
  function CreateItems(mode: Mode, cfg: seq<CfgEntry>, db: Database): (r: Result<Database, FactoryError>)
    ensures r.Success? ==> db.items.Keys <= r.value.items.Keys && db.prices.Keys <= r.value.prices.Keys
    ensures r.Success? ==> forall i :: 0 <= i < |cfg| ==>
      CanonicalId(mode, cfg[i]) in r.value.items && CanonicalId(mode, cfg[i]) in r.value.prices
    decreases |cfg|
  {
    if |cfg| == 0 then Success(db)
    else
      var db1 :- CreateItem(mode, cfg[0], db);
      assert forall i :: 1 <= i < |cfg| ==> cfg[i] == cfg[1..][i - 1];
      CreateItems(mode, cfg[1..], db1)
  }

  /** What `createItems` needs of the host tables for `cfg`: the SICC and
      every original kit exist, and in replace mode every original kit has a
      handbook entry. */
  ghost predicate HostProvides(mode: Mode, cfg: seq<CfgEntry>, db: Database) {
    && SiccTpl in db.items
    && (forall i :: 0 <= i < |cfg| ==> cfg[i].key in db.items)
    && (mode.Replace? ==> forall i :: 0 <= i < |cfg| ==> HasHandbookEntry(db.handbook, cfg[i].key))
  }

  /** `createItems` fails only on a missing host record. */
  lemma {:induction false} CreateItemsSucceeds(mode: Mode, cfg: seq<CfgEntry>, db: Database)
    requires HostProvides(mode, cfg, db)
    ensures CreateItems(mode, cfg, db).Success?
    decreases |cfg|
  {
    if |cfg| > 0 {
      var db1 := CreateItem(mode, cfg[0], db).value;
      assert forall i :: 1 <= i < |cfg| ==> cfg[i] == cfg[1..][i - 1];
      if mode.Replace? {
        forall i | 1 <= i < |cfg| ensures HasHandbookEntry(db1.handbook, cfg[i].key) {
          var j :| 0 <= j < |db.handbook| && db.handbook[j].id == cfg[i].key;
          assert db1.handbook[j].id == cfg[i].key;
        }
      }
      CreateItemsSucceeds(mode, cfg[1..], db1);
    }
  }

  /** The shipped table registers both kits whenever the host has the
      SICC and both original kits (with handbook entries in replace mode). */
  lemma ShippedCreateItems(mode: Mode, db: Database)
    requires SiccTpl in db.items && OriginalIfak in db.items && OriginalAfak in db.items
    requires mode.Replace? ==> HasHandbookEntry(db.handbook, OriginalIfak) && HasHandbookEntry(db.handbook, OriginalAfak)
    ensures var r := CreateItems(mode, ShippedCfg, db);
      && r.Success?
      && r.value.prices[CanonicalId(mode, ShippedCfg[0])] == 16000
      && r.value.prices[CanonicalId(mode, ShippedCfg[1])] == 28000
  {
    CreateItemsSucceeds(mode, ShippedCfg, db);
    ShippedIdentities();
    CreateItemsPrices(mode, ShippedCfg, db);
  }

  /** The shipped kits live under distinct ids in both modes, and their
      custom ids are distinct, decodable and give disjoint locale keys. */
  lemma ShippedLiveIds(mode: Mode)
    ensures CanonicalId(Replace, ShippedCfg[0]) == OriginalIfak && CanonicalId(Replace, ShippedCfg[1]) == OriginalAfak
    ensures CanonicalId(Additive, ShippedCfg[0]) == CustomIfak && CanonicalId(Additive, ShippedCfg[1]) == CustomAfak
    ensures DistinctLiveIds(mode, ShippedCfg)
    ensures DistinctLocaleKeys(ShippedCfg)
    ensures DistinctDecodableIds(ShippedCfg)
  {
    NoNineIsDecodable(CustomIfak);
    NoNineIsDecodable(CustomAfak);
    assert CustomIfak[6] != CustomAfak[6];
    LocaleKeysDisjoint(CustomIfak, CustomAfak);
  }

  /** With distinct live ids, every kit ends up with its configured price. */
  lemma {:induction false} CreateItemsPrices(mode: Mode, cfg: seq<CfgEntry>, db: Database)
    requires DistinctLiveIds(mode, cfg)
    ensures var r := CreateItems(mode, cfg, db);
      r.Success? ==> forall i :: 0 <= i < |cfg| ==> r.value.prices[CanonicalId(mode, cfg[i])] == cfg[i].info.price
    decreases |cfg|
  {
    if |cfg| > 0 {
      var r := CreateItems(mode, cfg, db);
      var c := CreateItem(mode, cfg[0], db);
      if r.Success? {
        var db1 := c.value;
        assert forall i :: 1 <= i < |cfg| ==> cfg[i] == cfg[1..][i - 1];
        assert DistinctLiveIds(mode, cfg[1..]);
        CreateItemsPrices(mode, cfg[1..], db1);
        CreateItemsKeepsPrices(mode, cfg[1..], db1, CanonicalId(mode, cfg[0]));
      }
    }
  }

  /** A price no later entry writes survives the rest of the fold. */
  lemma {:induction false} CreateItemsKeepsPrices(mode: Mode, cfg: seq<CfgEntry>, db: Database, id: string)
    requires id in db.prices
    requires forall i :: 0 <= i < |cfg| ==> CanonicalId(mode, cfg[i]) != id
    ensures var r := CreateItems(mode, cfg, db);
      r.Success? ==> r.value.prices[id] == db.prices[id]
    decreases |cfg|
  {
    if |cfg| > 0 {
      var c := CreateItem(mode, cfg[0], db);
      if c.Success? {
        assert forall i :: 1 <= i < |cfg| ==> cfg[i] == cfg[1..][i - 1];
        CreateItemsKeepsPrices(mode, cfg[1..], c.value, id);
      }
    }
  }

  /** Replace mode never lengthens the handbook nor touches the locale. */
  lemma {:induction false} CreateItemsReplaceKeepsCatalogue(cfg: seq<CfgEntry>, db: Database)
    ensures var r := CreateItems(Replace, cfg, db);
      r.Success? ==> |r.value.handbook| == |db.handbook| && r.value.localeEn == db.localeEn
    decreases |cfg|
  {
    if |cfg| > 0 {
      var c := CreateItem(Replace, cfg[0], db);
      if c.Success? {
        CreateItemsReplaceKeepsCatalogue(cfg[1..], c.value);
      }
    }
  }

  /** A template no later entry writes survives the rest of the fold. */
  lemma {:induction false} CreateItemsKeepsItem(mode: Mode, cfg: seq<CfgEntry>, db: Database, id: string)
    requires id in db.items
    requires forall i :: 0 <= i < |cfg| ==> CanonicalId(mode, cfg[i]) != id
    ensures var r := CreateItems(mode, cfg, db);
      r.Success? ==> r.value.items[id] == db.items[id]
    decreases |cfg|
  {
    if |cfg| > 0 {
      var c := CreateItem(mode, cfg[0], db);
      if c.Success? {
        assert forall i :: 1 <= i < |cfg| ==> cfg[i] == cfg[1..][i - 1];
        CreateItemsKeepsItem(mode, cfg[1..], c.value, id);
      }
    }
  }

  /** With distinct live ids, every kit ends up with a template carrying
      its live id, its configured name, weight and grids. */
  lemma {:induction false} CreateItemsTemplates(mode: Mode, cfg: seq<CfgEntry>, db: Database)
    requires DistinctLiveIds(mode, cfg)
    ensures var r := CreateItems(mode, cfg, db);
      r.Success? ==> forall i :: 0 <= i < |cfg| ==>
        KitTemplate(r.value.items[CanonicalId(mode, cfg[i])], cfg[i].info, CanonicalId(mode, cfg[i]))
    decreases |cfg|
  {
    if |cfg| > 0 {
      var r := CreateItems(mode, cfg, db);
      var c := CreateItem(mode, cfg[0], db);
      if r.Success? {
        var db1 := c.value;
        var id := CanonicalId(mode, cfg[0]);
        assert KitTemplate(db1.items[id], cfg[0].info, id);
        assert forall i :: 1 <= i < |cfg| ==> cfg[i] == cfg[1..][i - 1];
        assert DistinctLiveIds(mode, cfg[1..]);
        CreateItemsTemplates(mode, cfg[1..], db1);
        CreateItemsKeepsItem(mode, cfg[1..], db1, id);
      }
    }
  }

  /** No two records share an additive locale key. */
  ghost predicate DistinctLocaleKeys(cfg: seq<CfgEntry>) {
    forall i, j :: 0 <= i < j < |cfg| ==> LocaleKeys(cfg[i].info.idForNewItem) !! LocaleKeys(cfg[j].info.idForNewItem)
  }

  /** Different ids never share a locale key: equal suffixes leave the ids
      to differ, and the three suffixes differ in their last five letters. */
  lemma LocaleKeysDisjoint(a: string, b: string)
    requires a != b
    ensures LocaleKeys(a) !! LocaleKeys(b)
  {
    var sufs := [" Name", " ShortName", " Description"];
    assert sufs[0][|sufs[0]| - 5..] == " Name";
    assert sufs[1][|sufs[1]| - 5..] == "tName";
    assert sufs[2][|sufs[2]| - 5..] == "ption";
    forall m, n | 0 <= m < 3 && 0 <= n < 3 ensures a + sufs[m] != b + sufs[n] {
      EqualKeysAgree(a, b, sufs[m], sufs[n]);
    }
    assert LocaleKeys(a) == {a + sufs[0], a + sufs[1], a + sufs[2]};
    assert LocaleKeys(b) == {b + sufs[0], b + sufs[1], b + sufs[2]};
  }

  /** Equal keys end alike, and with one suffix they share the prefix too. */
  lemma EqualKeysAgree(a: string, b: string, s: string, t: string)
    requires |s| >= 5 && |t| >= 5
    ensures a + s == b + t ==> s[|s| - 5..] == t[|t| - 5..]
    ensures a + s == b + s ==> a == b
  {
    var x, y := a + s, b + t;
    if x == y {
      assert x[|x| - 5..] == s[|s| - 5..];
      assert y[|y| - 5..] == t[|t| - 5..];
    }
    if a + s == b + s {
      assert a == (a + s)[..|a|] && b == (b + s)[..|b|];
    }
  }

  /** The locale holds the configured name, short name and description of a kit. */
  ghost predicate HasLocale(locale: map<string, string>, details: ItemCfgInfo) {
    var id := details.idForNewItem;
    && LocaleKeys(id) <= locale.Keys
    && locale[id + " Name"] == details.locale.name
    && locale[id + " ShortName"] == details.locale.shortName
    && locale[id + " Description"] == details.locale.description
  }

  /** A locale string no record's keys cover survives additive `createItems`. */
  lemma {:induction false} CreateItemsKeepsLocale(cfg: seq<CfgEntry>, db: Database, k: string)
    requires k in db.localeEn
    requires forall i :: 0 <= i < |cfg| ==> k !in LocaleKeys(cfg[i].info.idForNewItem)
    ensures var r := CreateItems(Additive, cfg, db);
      r.Success? ==> k in r.value.localeEn && r.value.localeEn[k] == db.localeEn[k]
    decreases |cfg|
  {
    if |cfg| > 0 {
      var c := CreateItem(Additive, cfg[0], db);
      if c.Success? {
        assert forall i :: 1 <= i < |cfg| ==> cfg[i] == cfg[1..][i - 1];
        CreateItemsKeepsLocale(cfg[1..], c.value, k);
      }
    }
  }

  /** With distinct locale keys, additive mode leaves every kit with its
      configured name, short name and description. */
  lemma {:induction false} CreateItemsAdditiveLocale(cfg: seq<CfgEntry>, db: Database)
    requires DistinctLocaleKeys(cfg)
    ensures var r := CreateItems(Additive, cfg, db);
      r.Success? ==> forall i :: 0 <= i < |cfg| ==> HasLocale(r.value.localeEn, cfg[i].info)
    decreases |cfg|
  {
    var r := CreateItems(Additive, cfg, db);
    if |cfg| > 0 && r.Success? {
      var db1 := CreateItem(Additive, cfg[0], db).value;
      assert forall i :: 1 <= i < |cfg| ==> cfg[i] == cfg[1..][i - 1];
      assert DistinctLocaleKeys(cfg[1..]);
      CreateItemsAdditiveLocale(cfg[1..], db1);
      FirstLocaleKept(cfg, db);
    }
  }

  /** The first record's locale strings survive the rest of the fold. */
  lemma FirstLocaleKept(cfg: seq<CfgEntry>, db: Database)
    requires |cfg| > 0 && DistinctLocaleKeys(cfg)
    ensures var c := CreateItem(Additive, cfg[0], db);
      c.Success? && CreateItems(Additive, cfg[1..], c.value).Success? ==>
        HasLocale(CreateItems(Additive, cfg[1..], c.value).value.localeEn, cfg[0].info)
  {
    var c := CreateItem(Additive, cfg[0], db);
    if c.Success? {
      var id := cfg[0].info.idForNewItem;
      var rest := cfg[1..];
      forall k | k in LocaleKeys(id) ensures forall i :: 0 <= i < |rest| ==> k !in LocaleKeys(rest[i].info.idForNewItem) {
        forall i | 0 <= i < |rest| ensures k !in LocaleKeys(rest[i].info.idForNewItem) {
          assert rest[i] == cfg[i + 1];
        }
      }
      CreateItemsKeepsLocale(rest, c.value, id + " Name");
      CreateItemsKeepsLocale(rest, c.value, id + " ShortName");
      CreateItemsKeepsLocale(rest, c.value, id + " Description");
    }
  }

  /** Given the SICC and both original kits, the shipped kits are
      registered with their configured templates, and in additive mode with
      their configured locale strings. */
  lemma ShippedKitsRegistered(mode: Mode, db: Database)
    requires SiccTpl in db.items && OriginalIfak in db.items && OriginalAfak in db.items
    requires mode.Replace? ==> HasHandbookEntry(db.handbook, OriginalIfak) && HasHandbookEntry(db.handbook, OriginalAfak)
    ensures var r := CreateItems(mode, ShippedCfg, db);
      && r.Success?
      && (forall i :: 0 <= i < |ShippedCfg| ==>
            KitTemplate(r.value.items[CanonicalId(mode, ShippedCfg[i])], ShippedCfg[i].info, CanonicalId(mode, ShippedCfg[i])))
      && (mode.Additive? ==> forall i :: 0 <= i < |ShippedCfg| ==> HasLocale(r.value.localeEn, ShippedCfg[i].info))
  {
    ShippedCreateItems(mode, db);
    ShippedLiveIds(mode);
    CreateItemsTemplates(mode, ShippedCfg, db);
    if mode.Additive? {
      CreateItemsAdditiveLocale(ShippedCfg, db);
    }
  }

  /** The handbook entries additive mode lists for `cfg`, in table order. */
  function HandbookEntries(cfg: seq<CfgEntry>): (hb: seq<HandbookItem>)
    ensures |hb| == |cfg|
    ensures forall i :: 0 <= i < |cfg| ==>
      hb[i].id == cfg[i].info.idForNewItem && hb[i].parentId == HandbookMedkitsId && hb[i].price == cfg[i].info.price
  {
    if |cfg| == 0 then []
    else [HandbookItem(cfg[0].info.idForNewItem, HandbookMedkitsId, cfg[0].info.price)] + HandbookEntries(cfg[1..])
  }

  /** Additive mode appends one handbook entry per record, in table order,
      after the untouched host entries. */
  lemma {:induction false} CreateItemsAdditiveHandbook(cfg: seq<CfgEntry>, db: Database)
    ensures var r := CreateItems(Additive, cfg, db);
      r.Success? ==> r.value.handbook == db.handbook + HandbookEntries(cfg)
    decreases |cfg|
  {
    var r := CreateItems(Additive, cfg, db);
    if |cfg| > 0 && r.Success? {
      var x := HandbookItem(cfg[0].info.idForNewItem, HandbookMedkitsId, cfg[0].info.price);
      var db1 := CreateItem(Additive, cfg[0], db).value;
      assert db1.handbook == db.handbook + [x];
      CreateItemsAdditiveHandbook(cfg[1..], db1);
      assert r.value.handbook == (db.handbook + [x]) + HandbookEntries(cfg[1..]);
    }
  }

  // ---------------------------------------------------------------------
  // barterChanges

  /** Ids of the stock entries of `items` that sell template `tpl`, in order. */
  function MatchingIds(items: seq<Item>, tpl: string): (ids: seq<string>)
    ensures |ids| <= |items|
    ensures forall id :: id in ids <==> exists i :: 0 <= i < |items| && items[i].tpl == tpl && items[i].id == id
  {
    if |items| == 0 then []
    else
      var rest := MatchingIds(items[1..], tpl);
      assert forall i :: 1 <= i < |items| ==> items[i] == items[1..][i - 1];
      if items[0].tpl == tpl then [items[0].id] + rest else rest
  }

  /** Scanning a concatenation scans each part in turn. */
  lemma {:induction false} MatchingIdsAppend(a: seq<Item>, b: seq<Item>, tpl: string)
    ensures MatchingIds(a + b, tpl) == MatchingIds(a, tpl) + MatchingIds(b, tpl)
  {
    if |a| == 0 {
      assert a + b == b;
    } else {
      assert (a + b)[0] == a[0];
      assert (a + b)[1..] == a[1..] + b;
      MatchingIdsAppend(a[1..], b, tpl);
    }
  }

  /** The loyalty level stored under a lower-cased barter type name. */
  function LoyaltyLookup(l: LoyalLevel, key: string): (r: Option<int>)
    ensures r.Some? <==> key == "buy" || (key == "barter" && l.barter.Some?)
  {
    if key == "buy" then Some(l.buy)
    else if key == "barter" then l.barter
    else None
  }

  /** What one barter id gets in the trader's scheme and loyalty tables. */
  datatype BarterDetails = BarterDetails(scheme: seq<seq<SchemeItem>>, loyalty: int)

  /** The scheme and loyalty level the additive patch writes for `barterId`:
      the decoded type "Barter" takes the configured custom barter, any other
      type the bundle price in the configured currency; the loyalty level is
      looked up under the lower-cased type. */
  function BarterEntry(details: ItemCfgInfo, barterId: string): (r: Result<BarterDetails, FactoryError>)
    ensures GetBarterSchemeDetails(barterId).None? ==> r == Failure(UndecodableBarterId(barterId))
    ensures r.Success? && GetBarterSchemeDetails(barterId) == Some("Barter") ==>
      details.customBarter == Some(r.value.scheme)
    ensures r.Success? && GetBarterSchemeDetails(barterId) != Some("Barter") ==>
      details.bundlePrice.Some? && r.value.scheme == [[SchemeItem(details.currency, details.bundlePrice.value)]]
  {
    match GetBarterSchemeDetails(barterId)
    case None => Failure(UndecodableBarterId(barterId))
    case Some(bType) =>
      var scheme: Result<seq<seq<SchemeItem>>, FactoryError> :=
        if bType == "Barter" then
          (if details.customBarter.Some? then Success(details.customBarter.value) else Failure(MissingCustomBarter(barterId)))
        else if details.bundlePrice.Some? then Success([[SchemeItem(details.currency, details.bundlePrice.value)]])
        else Failure(MissingBundlePrice(barterId));
      var sch :- scheme;
      match LoyaltyLookup(details.loyalLevel, ToLowerAscii(bType))
      case None => Failure(MissingLoyaltyLevel(barterId))
      case Some(level) => Success(BarterDetails(sch, level))
  }

  /** The buy entry of a kit with a decodable id sells it for the bundle
      price at the buy loyalty level. */
  lemma BuyEntry(details: ItemCfgInfo, id: string)
    requires DecodableBase(id)
    ensures BarterEntry(details, GetBarterId(id, Buy, 0)) ==
      if details.bundlePrice.Some? then Success(BarterDetails([[SchemeItem(details.currency, details.bundlePrice.value)]], details.loyalLevel.buy))
      else Failure(MissingBundlePrice(GetBarterId(id, Buy, 0)))
  {
    BarterIdRoundTrip(id, Buy, 0);
    assert ToLowerAscii("Buy") == "buy";
  }

  /** The barter entry of a kit with a decodable id and a custom barter
      trades it for that barter at the barter loyalty level. */
  lemma BarterEntryOfBarter(details: ItemCfgInfo, id: string)
    requires DecodableBase(id) && details.customBarter.Some?
    ensures BarterEntry(details, GetBarterId(id, Barter, 0)) ==
      if details.loyalLevel.barter.Some? then Success(BarterDetails(details.customBarter.value, details.loyalLevel.barter.value))
      else Failure(MissingLoyaltyLevel(GetBarterId(id, Barter, 0)))
  {
    BarterIdRoundTrip(id, Barter, 0);
    assert ToLowerAscii("Barter") == "barter";
  }

  /** Writes the scheme and loyalty level of every id, in order, into the
      assort; the first id whose entry fails fails the whole write. */
  function WriteBarterDetails(details: ItemCfgInfo, barterIds: seq<string>, a: Assort): (r: Result<Assort, FactoryError>)
    ensures r.Success? <==> forall i :: 0 <= i < |barterIds| ==> BarterEntry(details, barterIds[i]).Success?
    ensures r.Success? ==> r.value.items == a.items
    decreases |barterIds|
  {
    if |barterIds| == 0 then Success(a)
    else
      assert forall i :: 1 <= i < |barterIds| ==> barterIds[i] == barterIds[1..][i - 1];
      var bd :- BarterEntry(details, barterIds[0]);
      WriteBarterDetails(details, barterIds[1..], WriteOne(a, barterIds[0], bd))
  }

  /** The assort with one id's scheme and loyalty level written. */
  function WriteOne(a: Assort, barterId: string, bd: BarterDetails): Assort {
    a.(barterScheme := a.barterScheme[barterId := bd.scheme],
       loyalLevelItems := a.loyalLevelItems[barterId := bd.loyalty])
  }

  /** Ids not in the list keep their scheme and loyalty level. */
  lemma {:induction false} WriteBarterDetailsKeeps(details: ItemCfgInfo, barterIds: seq<string>, a: Assort, k: string)
    requires k !in barterIds
    ensures var r := WriteBarterDetails(details, barterIds, a);
      r.Success? ==>
        && (k in r.value.barterScheme <==> k in a.barterScheme)
        && (k in a.barterScheme ==> r.value.barterScheme[k] == a.barterScheme[k])
        && (k in r.value.loyalLevelItems <==> k in a.loyalLevelItems)
        && (k in a.loyalLevelItems ==> r.value.loyalLevelItems[k] == a.loyalLevelItems[k])
    decreases |barterIds|
  {
    var r := WriteBarterDetails(details, barterIds, a);
    if |barterIds| > 0 && r.Success? {
      var bd := BarterEntry(details, barterIds[0]).value;
      WriteBarterDetailsKeeps(details, barterIds[1..], WriteOne(a, barterIds[0], bd), k);
    }
  }

  /** Every listed id ends up with the scheme and loyalty level of its entry. */
  lemma {:induction false} WriteBarterDetailsWrites(details: ItemCfgInfo, barterIds: seq<string>, a: Assort, i: nat)
    requires i < |barterIds|
    ensures var r := WriteBarterDetails(details, barterIds, a);
      r.Success? ==>
        && barterIds[i] in r.value.barterScheme
        && r.value.barterScheme[barterIds[i]] == BarterEntry(details, barterIds[i]).value.scheme
        && barterIds[i] in r.value.loyalLevelItems
        && r.value.loyalLevelItems[barterIds[i]] == BarterEntry(details, barterIds[i]).value.loyalty
    decreases |barterIds|
  {
    var r := WriteBarterDetails(details, barterIds, a);
    if r.Success? {
      var bd := BarterEntry(details, barterIds[0]).value;
      var a1 := WriteOne(a, barterIds[0], bd);
      if i > 0 {
        WriteBarterDetailsWrites(details, barterIds[1..], a1, i - 1);
      } else if barterIds[0] in barterIds[1..] {
        var j :| 0 <= j < |barterIds[1..]| && barterIds[1..][j] == barterIds[0];
        WriteBarterDetailsWrites(details, barterIds[1..], a1, j);
      } else {
        WriteBarterDetailsKeeps(details, barterIds[1..], a1, barterIds[0]);
      }
    }
  }

  /** Child `k` of a trader kit is named after its stock entry. */
  function TraderChildIds(barterId: string, n: nat): (ids: seq<string>)
    ensures |ids| == n
  {
    seq(n, k requires 0 <= k < n => barterId + "Item" + NatToString(k))
  }

  /** The records that fill the kit sold under `barterId`. */
  function TraderChildren(details: ItemCfgInfo, barterId: string): (kids: seq<Item>)
    ensures |kids| == |details.BundledItems()|
    ensures forall k :: 0 <= k < |kids| ==> kids[k].parentId == barterId && kids[k].tpl == details.BundledItems()[k]
  {
    Children(details, barterId, TraderChildIds(barterId, |details.BundledItems()|))
  }

  /** The ids of one kit's children are pairwise distinct. */
  lemma TraderChildIdsDistinct(barterId: string, n: nat)
    ensures forall i, j :: 0 <= i < j < n ==> TraderChildIds(barterId, n)[i] != TraderChildIds(barterId, n)[j]
  {
    var ids := TraderChildIds(barterId, n);
    forall i, j | 0 <= i < j < n ensures ids[i] != ids[j] {
      var pre := barterId + "Item";
      assert ids[i] == pre + NatToString(i) && ids[j] == pre + NatToString(j);
      if ids[i] == ids[j] {
        assert NatToString(i) == ids[i][|pre|..] == ids[j][|pre|..] == NatToString(j);
        NatToStringInjective(i, j);
      }
    }
  }

  /** A trader kit is filled with the same strict in-order layout as a
      generated kit: child `k` gets id `barterId + "Item" + k`, the `k`-th
      bundled template, and the grid `Locate` assigns to `k`. */
  lemma TraderChildrenLayout(details: ItemCfgInfo, barterId: string)
    requires AllPositive(GetGridSlotCounts(details.grids))
    ensures var kids := TraderChildren(details, barterId);
      forall k :: 0 <= k < |kids| ==> kids[k] == Item(
        barterId + "Item" + NatToString(k), details.BundledItems()[k], barterId,
        GetGridNameId(details, Locate(GetGridSlotCounts(details.grids), k).grid), None)
  {
    PackingFillsInOrder(GetGridSlotCounts(details.grids), |details.BundledItems()|);
  }

  /** The children of every listed stock entry, entry by entry. */
  function ChildrenOfAll(details: ItemCfgInfo, barterIds: seq<string>): (kids: seq<Item>)
    ensures |kids| == |barterIds| * |details.BundledItems()|
    ensures forall j :: 0 <= j < |kids| ==> kids[j].parentId in barterIds
    ensures details.BundledItems() == [] ==> kids == []
    decreases |barterIds|
  {
    if |barterIds| == 0 then []
    else
      var rest := ChildrenOfAll(details, barterIds[1..]);
      assert forall j :: 0 <= j < |rest| ==> rest[j].parentId in barterIds;
      assert |barterIds| * |details.BundledItems()| == |details.BundledItems()| + (|barterIds| - 1) * |details.BundledItems()|;
      TraderChildren(details, barterIds[0]) + rest
  }

  /** Filling the kits of a concatenation fills each part in turn. */
  lemma {:induction false} ChildrenOfAllAppend(details: ItemCfgInfo, a: seq<string>, b: seq<string>)
    ensures ChildrenOfAll(details, a + b) == ChildrenOfAll(details, a) + ChildrenOfAll(details, b)
    decreases |a|
  {
    if |a| == 0 {
      assert a + b == b;
    } else {
      assert (a + b)[0] == a[0];
      assert (a + b)[1..] == a[1..] + b;
      ChildrenOfAllAppend(details, a[1..], b);
    }
  }

  /** The children of stock entry `b` form one contiguous block, after the
      blocks of the entries before it and before those of the entries after. */
  lemma ChildrenOfAllBlock(details: ItemCfgInfo, barterIds: seq<string>, b: nat)
    requires b < |barterIds|
    ensures ChildrenOfAll(details, barterIds) ==
      ChildrenOfAll(details, barterIds[..b]) + TraderChildren(details, barterIds[b]) + ChildrenOfAll(details, barterIds[b + 1..])
  {
    var tail := [barterIds[b]] + barterIds[b + 1..];
    assert barterIds == barterIds[..b] + tail;
    ChildrenOfAllAppend(details, barterIds[..b], tail);
    assert tail[1..] == barterIds[b + 1..];
  }

  /** Every listed stock entry's children are among all the children. */
  lemma ChildrenOfAllContains(details: ItemCfgInfo, barterIds: seq<string>, id: string)
    requires id in barterIds
    ensures forall c :: c in TraderChildren(details, id) ==> c in ChildrenOfAll(details, barterIds)
  {
    var b :| 0 <= b < |barterIds| && barterIds[b] == id;
    ChildrenOfAllBlock(details, barterIds, b);
  }

  /** The stock entries the additive patch creates for `ids`. */
  function StockEntries(ids: seq<string>, tpl: string): (items: seq<Item>)
    ensures |items| == |ids|
    ensures forall i :: 0 <= i < |ids| ==> items[i].id == ids[i] && items[i].tpl == tpl
  {
    seq(|ids|, i requires 0 <= i < |ids| => Item(ids[i], tpl, Hideout, Hideout, Some(StockUpd)))
  }

  /** The additive stock ids of a kit: buy, then barter when configured. */
  function NewStockIds(details: ItemCfgInfo): (ids: seq<string>)
    ensures 1 <= |ids| <= 2
    ensures |ids| == 2 <==> details.customBarter.Some?
  {
    [GetBarterId(details.idForNewItem, Buy, 0)]
      + (if details.customBarter.Some? then [GetBarterId(details.idForNewItem, Barter, 0)] else [])
  }

  /** A trader without an assort or without assort items is left alone. */
  predicate Skipped(t: Trader) {
    t.assort.None? || t.assort.value.items.None?
  }

  /** The stock entries whose kits get filled: in replace mode every
      existing entry selling the kit; in additive mode the new entries, at
      the seller only. */
  function StockIds(mode: Mode, e: CfgEntry, t: Trader): (ids: seq<string>)
    requires !Skipped(t)
    ensures mode.Additive? && t.baseId != e.info.soldBy ==> ids == []
  {
    if mode.Replace? then MatchingIds(t.assort.value.items.value, CanonicalId(mode, e))
    else if t.baseId == e.info.soldBy then NewStockIds(e.info)
    else []
  }

  /** `t` after it, keeping its identity and the shape of its assort, with
      the old item list as a prefix of the new one. */
  ghost predicate Extends(t: Trader, t1: Trader) {
    && t1.baseId == t.baseId
    && (t1.assort.Some? <==> t.assort.Some?)
    && (t.assort.Some? ==>
         && (t1.assort.value.items.Some? <==> t.assort.value.items.Some?)
         && (t.assort.value.items.Some? ==>
              && |t.assort.value.items.value| <= |t1.assort.value.items.value|
              && t1.assort.value.items.value[..|t.assort.value.items.value|] == t.assort.value.items.value))
  }

  lemma ExtendsTransitive(t: Trader, t1: Trader, t2: Trader)
    requires Extends(t, t1) && Extends(t1, t2)
    ensures Extends(t, t2)
  {
    if t.assort.Some? && t.assort.value.items.Some? {
      var a, b, c := t.assort.value.items.value, t1.assort.value.items.value, t2.assort.value.items.value;
      assert c[..|a|] == c[..|b|][..|a|];
    }
  }

  /** Prices and loyalty gates of `t` are those of `t1`. */
  ghost predicate SameEconomy(t: Trader, t1: Trader) {
    t.assort.Some? && t1.assort.Some? ==>
      && t1.assort.value.barterScheme == t.assort.value.barterScheme
      && t1.assort.value.loyalLevelItems == t.assort.value.loyalLevelItems
  }

  /** One trader in one iteration of `barterChanges`. */
  function PatchTrader(mode: Mode, e: CfgEntry, t: Trader): (r: Result<Trader, FactoryError>)
    ensures Skipped(t) ==> r == Success(t)
    ensures r.Success? ==> Extends(t, r.value)
    ensures mode.Replace? ==> r.Success? && SameEconomy(t, r.value)
    ensures mode.Additive? && t.baseId != e.info.soldBy ==> r == Success(t)
    ensures !Skipped(t) ==>
      var ids := StockIds(mode, e, t);
      var items := t.assort.value.items.value;
      && (r.Success? <==> mode.Replace? || forall i :: 0 <= i < |ids| ==> BarterEntry(e.info, ids[i]).Success?)
      && (r.Success? ==>
            r.value.assort.value.items.value
              == items + (if mode.Additive? then StockEntries(ids, e.info.idForNewItem) else []) + ChildrenOfAll(e.info, ids))
  {
    if Skipped(t) then Success(t)
    else
      var a := t.assort.value;
      var items := a.items.value;
      var ids := StockIds(mode, e, t);
      var stock := if mode.Additive? then StockEntries(ids, e.info.idForNewItem) else [];
      var written := if mode.Replace? then Success(a) else WriteBarterDetails(e.info, ids, a);
      var a1 :- written;
      var items1 := items + stock + ChildrenOfAll(e.info, ids);
      assert items1[..|items|] == items;
      Success(t.(assort := Some(a1.(items := Some(items1)))))
  }

  /** A record the additive patch can write without a failed lookup: its id
      decodes, it has a bundle price, and a custom barter comes with a
      barter loyalty level. Replace mode writes no details. */
  ghost predicate Patchable(mode: Mode, e: CfgEntry) {
    mode.Additive? ==>
      && DecodableBase(e.info.idForNewItem)
      && e.info.bundlePrice.Some?
      && (e.info.customBarter.Some? ==> e.info.loyalLevel.barter.Some?)
  }

  /** Additive mode at the seller: the kit is stocked under a buy entry (and
      a barter entry when configured), each priced and gated as configured,
      followed by the filled kits; every other scheme and gate is kept. */
  lemma AdditiveSellerPatch(e: CfgEntry, t: Trader)
    requires !Skipped(t) && t.baseId == e.info.soldBy && DecodableBase(e.info.idForNewItem)
    ensures var r := PatchTrader(Additive, e, t);
      var id := e.info.idForNewItem;
      var buyId := GetBarterId(id, Buy, 0);
      var barterId := GetBarterId(id, Barter, 0);
      var a0 := t.assort.value;
      && (r.Success? <==> Patchable(Additive, e))
      && (r.Success? ==>
          var a := r.value.assort.value;
          && a.items.value[|a0.items.value|] == Item(buyId, id, Hideout, Hideout, Some(StockUpd))
          && buyId in a.barterScheme && a.barterScheme[buyId] == [[SchemeItem(e.info.currency, e.info.bundlePrice.value)]]
          && buyId in a.loyalLevelItems && a.loyalLevelItems[buyId] == e.info.loyalLevel.buy
          && (e.info.customBarter.Some? ==>
                && a.items.value[|a0.items.value| + 1] == Item(barterId, id, Hideout, Hideout, Some(StockUpd))
                && barterId in a.barterScheme && a.barterScheme[barterId] == e.info.customBarter.value
                && barterId in a.loyalLevelItems && a.loyalLevelItems[barterId] == e.info.loyalLevel.barter.value)
          && (forall k :: k != buyId && k != barterId && k in a0.barterScheme ==>
                k in a.barterScheme && a.barterScheme[k] == a0.barterScheme[k]))
  {
    var id := e.info.idForNewItem;
    var ids := NewStockIds(e.info);
    BuyEntry(e.info, id);
    if e.info.customBarter.Some? {
      BarterEntryOfBarter(e.info, id);
    }
    var r := PatchTrader(Additive, e, t);
    if r.Success? {
      var a := r.value.assort.value;
      var written := WriteBarterDetails(e.info, ids, t.assort.value);
      assert written.Success?;
      assert a.barterScheme == written.value.barterScheme;
      assert a.loyalLevelItems == written.value.loyalLevelItems;
      WriteBarterDetailsWrites(e.info, ids, t.assort.value, 0);
      if e.info.customBarter.Some? {
        WriteBarterDetailsWrites(e.info, ids, t.assort.value, 1);
      }
      forall k | k != ids[0] && k != GetBarterId(id, Barter, 0)
        ensures k in t.assort.value.barterScheme ==> k in a.barterScheme && a.barterScheme[k] == t.assort.value.barterScheme[k]
      {
        WriteBarterDetailsKeeps(e.info, ids, t.assort.value, k);
      }
    }
  }

  /** Replace mode: every existing stock entry selling the kit gets a filled
      kit; nothing is added when no entry sells it. */
  lemma ReplacePatch(e: CfgEntry, t: Trader)
    requires !Skipped(t)
    ensures var r := PatchTrader(Replace, e, t);
      var items := t.assort.value.items.value;
      var kids := ChildrenOfAll(e.info, MatchingIds(items, e.key));
      && r.Success?
      && r.value.assort.value.items.value == items + kids
      && ParentedToSellers(kids, items, e.key)
  {
    var items := t.assort.value.items.value;
    var ids := MatchingIds(items, e.key);
    var kids := ChildrenOfAll(e.info, ids);
    forall j | 0 <= j < |kids| ensures IsSellerId(items, e.key, kids[j].parentId) {
      assert kids[j].parentId in ids;
    }
  }

  /** Every record of `kids` is parented to a stock entry of `items` that
      sells `tpl`. */
  ghost predicate ParentedToSellers(kids: seq<Item>, items: seq<Item>, tpl: string) {
    forall j :: 0 <= j < |kids| ==> IsSellerId(items, tpl, kids[j].parentId)
  }

  /** Some stock entry of `items` with id `id` sells `tpl`. */
  ghost predicate IsSellerId(items: seq<Item>, tpl: string, id: string) {
    exists i :: 0 <= i < |items| && items[i].tpl == tpl && items[i].id == id
  }

  /** Every trader, in order. */
  function PatchTraders(mode: Mode, e: CfgEntry, traders: seq<Trader>): (r: Result<seq<Trader>, FactoryError>)
    ensures r.Success? <==> forall i :: 0 <= i < |traders| ==> PatchTrader(mode, e, traders[i]).Success?
    ensures r.Success? ==>
      && |r.value| == |traders|
      && forall i :: 0 <= i < |traders| ==> r.value[i] == PatchTrader(mode, e, traders[i]).value
    decreases |traders|
  {
    if |traders| == 0 then Success([])
    else
      assert forall i :: 1 <= i < |traders| ==> traders[i] == traders[1..][i - 1];
      var t0 :- PatchTrader(mode, e, traders[0]);
      var rest :- PatchTraders(mode, e, traders[1..]);
      Success([t0] + rest)
  }

  /** `barterChanges`: every record of the table patches every trader. */
  function BarterChanges(mode: Mode, cfg: seq<CfgEntry>, traders: seq<Trader>): (r: Result<seq<Trader>, FactoryError>)
    ensures r.Success? ==> |r.value| == |traders|
    decreases |cfg|
  {
    if |cfg| == 0 then Success(traders)
    else
      var ts :- PatchTraders(mode, cfg[0], traders);
      BarterChanges(mode, cfg[1..], ts)
  }

  /** Traders keep their identity and only ever gain items. */
  lemma {:induction false} BarterChangesExtends(mode: Mode, cfg: seq<CfgEntry>, traders: seq<Trader>)
    ensures var r := BarterChanges(mode, cfg, traders);
      r.Success? ==> forall i :: 0 <= i < |traders| ==> Extends(traders[i], r.value[i])
    decreases |cfg|
  {
    var r := BarterChanges(mode, cfg, traders);
    if |cfg| > 0 && r.Success? {
      var ts := PatchTraders(mode, cfg[0], traders).value;
      BarterChangesExtends(mode, cfg[1..], ts);
      forall i | 0 <= i < |traders| ensures Extends(traders[i], r.value[i]) {
        ExtendsTransitive(traders[i], ts[i], r.value[i]);
      }
    }
  }

  /** Replace mode never fails and never changes a price or a loyalty gate. */
  lemma {:induction false} ReplaceKeepsEconomy(cfg: seq<CfgEntry>, traders: seq<Trader>)
    ensures var r := BarterChanges(Replace, cfg, traders);
      r.Success? && forall i :: 0 <= i < |traders| ==> SameEconomy(traders[i], r.value[i])
    decreases |cfg|
  {
    if |cfg| > 0 {
      var ts := PatchTraders(Replace, cfg[0], traders).value;
      ReplaceKeepsEconomy(cfg[1..], ts);
      var r := BarterChanges(Replace, cfg, traders);
      forall i | 0 <= i < |traders| ensures SameEconomy(traders[i], r.value[i]) {
        assert Extends(traders[i], ts[i]);
      }
    }
  }

  /** Additive mode leaves a trader that sells no configured kit untouched. */
  lemma {:induction false} NonSellersUntouched(cfg: seq<CfgEntry>, traders: seq<Trader>, i: nat)
    requires i < |traders|
    requires forall j :: 0 <= j < |cfg| ==> cfg[j].info.soldBy != traders[i].baseId
    ensures var r := BarterChanges(Additive, cfg, traders);
      r.Success? ==> r.value[i] == traders[i]
    decreases |cfg|
  {
    var r := BarterChanges(Additive, cfg, traders);
    if |cfg| > 0 && r.Success? {
      var ts := PatchTraders(Additive, cfg[0], traders).value;
      assert ts[i] == traders[i];
      assert forall j :: 1 <= j < |cfg| ==> cfg[j] == cfg[1..][j - 1];
      NonSellersUntouched(cfg[1..], ts, i);
    }
  }

  /** A table whose every record is patchable never fails. */
  lemma {:induction false} PatchableSucceeds(mode: Mode, cfg: seq<CfgEntry>, traders: seq<Trader>)
    requires forall j :: 0 <= j < |cfg| ==> Patchable(mode, cfg[j])
    ensures BarterChanges(mode, cfg, traders).Success?
    decreases |cfg|
  {
    if |cfg| > 0 {
      forall i | 0 <= i < |traders| ensures PatchTrader(mode, cfg[0], traders[i]).Success? {
        var t := traders[i];
        if !Skipped(t) && mode.Additive? && t.baseId == cfg[0].info.soldBy {
          AdditiveSellerPatch(cfg[0], t);
        }
      }
      var ts := PatchTraders(mode, cfg[0], traders).value;
      assert forall j :: 1 <= j < |cfg| ==> cfg[j] == cfg[1..][j - 1];
      PatchableSucceeds(mode, cfg[1..], ts);
    }
  }

  /** The shipped table patches any set of traders in either mode. */
  lemma ShippedBarterChangesSucceed(mode: Mode, traders: seq<Trader>)
    ensures BarterChanges(mode, ShippedCfg, traders).Success?
  {
    NoNineIsDecodable(IfakInfo.idForNewItem);
    NoNineIsDecodable(AfakInfo.idForNewItem);
    PatchableSucceeds(mode, ShippedCfg, traders);
  }

  /** `t` stocks a hideout entry `barterId` of template `tpl`, priced at
      `scheme` and gated at `loyalty`. */
  ghost predicate Sells(t: Trader, barterId: string, tpl: string, scheme: seq<seq<SchemeItem>>, loyalty: int) {
    && t.assort.Some? && t.assort.value.items.Some?
    && Item(barterId, tpl, Hideout, Hideout, Some(StockUpd)) in t.assort.value.items.value
    && barterId in t.assort.value.barterScheme && t.assort.value.barterScheme[barterId] == scheme
    && barterId in t.assort.value.loyalLevelItems && t.assort.value.loyalLevelItems[barterId] == loyalty
  }

  /** Every record of `kids` is on `t`'s stock list. */
  ghost predicate HoldsAll(t: Trader, kids: seq<Item>) {
    && t.assort.Some? && t.assort.value.items.Some?
    && forall c :: c in kids ==> c in t.assort.value.items.value
  }

  /** Extending a trader keeps every item it held. */
  lemma ExtendsKeepsItems(t: Trader, t1: Trader, kids: seq<Item>)
    requires HoldsAll(t, kids) && Extends(t, t1)
    ensures HoldsAll(t1, kids)
  {
    var items, items1 := t.assort.value.items.value, t1.assort.value.items.value;
    forall c | c in kids ensures c in items1 {
      var p :| 0 <= p < |items| && items[p] == c;
      assert items1[..|items|][p] == c;
    }
  }

  /** The stock ids of kits with different decodable ids are disjoint. */
  lemma NewStockIdsDisjoint(d: ItemCfgInfo, d1: ItemCfgInfo)
    requires DecodableBase(d.idForNewItem) && DecodableBase(d1.idForNewItem)
    requires d.idForNewItem != d1.idForNewItem
    ensures forall x :: x in NewStockIds(d) ==> x !in NewStockIds(d1)
  {
    forall t: BarterType, u: BarterType ensures GetBarterId(d.idForNewItem, t, 0) != GetBarterId(d1.idForNewItem, u, 0) {
      if GetBarterId(d.idForNewItem, t, 0) == GetBarterId(d1.idForNewItem, u, 0) {
        BarterIdInjective(d.idForNewItem, d1.idForNewItem, t, u, 0, 0);
      }
    }
  }

  /** A sale that one record does not write survives that record's patch. */
  lemma PatchTraderKeepsSale(mode: Mode, e: CfgEntry, t: Trader, barterId: string, tpl: string, scheme: seq<seq<SchemeItem>>, loyalty: int)
    requires Sells(t, barterId, tpl, scheme, loyalty)
    requires mode.Additive? ==> barterId !in NewStockIds(e.info)
    ensures var r := PatchTrader(mode, e, t);
      r.Success? ==> Sells(r.value, barterId, tpl, scheme, loyalty)
  {
    var r := PatchTrader(mode, e, t);
    if r.Success? {
      var x := Item(barterId, tpl, Hideout, Hideout, Some(StockUpd));
      ExtendsKeepsItems(t, r.value, [x]);
      if mode.Additive? && t.baseId == e.info.soldBy {
        WriteBarterDetailsKeeps(e.info, NewStockIds(e.info), t.assort.value, barterId);
      }
    }
  }

  /** A sale that no record writes survives the whole pass. */
  lemma {:induction false} BarterChangesKeepsSale(mode: Mode, cfg: seq<CfgEntry>, traders: seq<Trader>, i: nat,
                                                  barterId: string, tpl: string, scheme: seq<seq<SchemeItem>>, loyalty: int)
    requires i < |traders| && Sells(traders[i], barterId, tpl, scheme, loyalty)
    requires mode.Additive? ==> forall m :: 0 <= m < |cfg| ==> barterId !in NewStockIds(cfg[m].info)
    ensures var r := BarterChanges(mode, cfg, traders);
      r.Success? ==> Sells(r.value[i], barterId, tpl, scheme, loyalty)
    decreases |cfg|
  {
    var r := BarterChanges(mode, cfg, traders);
    if |cfg| > 0 && r.Success? {
      var ts := PatchTraders(mode, cfg[0], traders).value;
      PatchTraderKeepsSale(mode, cfg[0], traders[i], barterId, tpl, scheme, loyalty);
      assert forall m :: 1 <= m < |cfg| ==> cfg[m] == cfg[1..][m - 1];
      BarterChangesKeepsSale(mode, cfg[1..], ts, i, barterId, tpl, scheme, loyalty);
    }
  }

  /** Decodable ids, pairwise distinct across the table. */
  ghost predicate DistinctDecodableIds(cfg: seq<CfgEntry>) {
    && (forall m :: 0 <= m < |cfg| ==> DecodableBase(cfg[m].info.idForNewItem))
    && (forall m, n :: 0 <= m < n < |cfg| ==> cfg[m].info.idForNewItem != cfg[n].info.idForNewItem)
  }

  /** Additive mode over the whole table: a seller of record `j` ends up
      selling the kit under its buy entry for the bundle price at the buy
      loyalty level, and, when a custom barter is configured, under its
      barter entry for that barter at the barter loyalty level. */
  lemma {:induction false} AdditiveStocksSellers(cfg: seq<CfgEntry>, traders: seq<Trader>, j: nat, i: nat)
    requires j < |cfg| && i < |traders| && DistinctDecodableIds(cfg)
    requires !Skipped(traders[i]) && traders[i].baseId == cfg[j].info.soldBy
    ensures var r := BarterChanges(Additive, cfg, traders);
      var d := cfg[j].info;
      r.Success? ==>
        && d.bundlePrice.Some?
        && Sells(r.value[i], GetBarterId(d.idForNewItem, Buy, 0), d.idForNewItem,
                 [[SchemeItem(d.currency, d.bundlePrice.value)]], d.loyalLevel.buy)
        && (d.customBarter.Some? ==>
              && d.loyalLevel.barter.Some?
              && Sells(r.value[i], GetBarterId(d.idForNewItem, Barter, 0), d.idForNewItem,
                       d.customBarter.value, d.loyalLevel.barter.value))
    decreases |cfg|
  {
    var r := BarterChanges(Additive, cfg, traders);
    if r.Success? {
      var ts := PatchTraders(Additive, cfg[0], traders).value;
      assert Extends(traders[i], ts[i]);
      assert forall m :: 1 <= m < |cfg| ==> cfg[m] == cfg[1..][m - 1];
      if j == 0 {
        SellerSalesKept(cfg, traders, i);
      } else {
        assert DistinctDecodableIds(cfg[1..]);
        AdditiveStocksSellers(cfg[1..], ts, j - 1, i);
      }
    }
  }

  /** The sales record 0 writes at a seller survive the rest of the table. */
  lemma SellerSalesKept(cfg: seq<CfgEntry>, traders: seq<Trader>, i: nat)
    requires 0 < |cfg| && i < |traders| && DistinctDecodableIds(cfg)
    requires !Skipped(traders[i]) && traders[i].baseId == cfg[0].info.soldBy
    ensures var r := BarterChanges(Additive, cfg, traders);
      var d := cfg[0].info;
      r.Success? ==>
        && d.bundlePrice.Some?
        && Sells(r.value[i], GetBarterId(d.idForNewItem, Buy, 0), d.idForNewItem,
                 [[SchemeItem(d.currency, d.bundlePrice.value)]], d.loyalLevel.buy)
        && (d.customBarter.Some? ==>
              && d.loyalLevel.barter.Some?
              && Sells(r.value[i], GetBarterId(d.idForNewItem, Barter, 0), d.idForNewItem,
                       d.customBarter.value, d.loyalLevel.barter.value))
  {
    var r := BarterChanges(Additive, cfg, traders);
    if r.Success? {
      var e := cfg[0];
      var d := e.info;
      var id := d.idForNewItem;
      var ts := PatchTraders(Additive, e, traders).value;
      var rest := cfg[1..];
      AdditiveSellerPatch(e, traders[i]);
      var n := |traders[i].assort.value.items.value|;
      var items := ts[i].assort.value.items.value;
      assert items[n] in items;
      forall m | 0 <= m < |rest| ensures forall x :: x in NewStockIds(d) ==> x !in NewStockIds(rest[m].info) {
        assert rest[m] == cfg[m + 1];
        NewStockIdsDisjoint(d, rest[m].info);
      }
      var buyId := GetBarterId(id, Buy, 0);
      assert buyId in NewStockIds(d);
      BarterChangesKeepsSale(Additive, rest, ts, i, buyId, id, [[SchemeItem(d.currency, d.bundlePrice.value)]], d.loyalLevel.buy);
      if d.customBarter.Some? {
        var barterId := GetBarterId(id, Barter, 0);
        assert barterId in NewStockIds(d);
        assert items[n + 1] in items;
        BarterChangesKeepsSale(Additive, rest, ts, i, barterId, id, d.customBarter.value, d.loyalLevel.barter.value);
      }
    }
  }

  /** One replace-mode record: a stock entry selling the kit gets all of
      the kit's children. */
  lemma ReplacePatchFillsStock(e: CfgEntry, t: Trader, p: nat)
    requires !Skipped(t) && p < |t.assort.value.items.value|
    requires t.assort.value.items.value[p].tpl == e.key
    ensures var r := PatchTrader(Replace, e, t);
      r.Success? && HoldsAll(r.value, TraderChildren(e.info, t.assort.value.items.value[p].id))
  {
    var items := t.assort.value.items.value;
    var ids := MatchingIds(items, e.key);
    ReplacePatch(e, t);
    assert items[p].id in ids;
    ChildrenOfAllContains(e.info, ids, items[p].id);
  }

  /** Replace mode over the whole table: every stock entry a trader had
      that sells a configured kit ends up with that kit's children. */
  lemma {:induction false} ReplaceFillsExistingStock(cfg: seq<CfgEntry>, traders: seq<Trader>, j: nat, i: nat, p: nat)
    requires j < |cfg| && i < |traders| && !Skipped(traders[i])
    requires p < |traders[i].assort.value.items.value|
    requires traders[i].assort.value.items.value[p].tpl == cfg[j].key
    ensures var r := BarterChanges(Replace, cfg, traders);
      && r.Success?
      && HoldsAll(r.value[i], TraderChildren(cfg[j].info, traders[i].assort.value.items.value[p].id))
    decreases |cfg|
  {
    var ts := PatchTraders(Replace, cfg[0], traders).value;
    var items := traders[i].assort.value.items.value;
    if j == 0 {
      ReplacePatchFillsStock(cfg[0], traders[i], p);
      ReplaceKeepsEconomy(cfg[1..], ts);
      BarterChangesExtends(Replace, cfg[1..], ts);
      ExtendsKeepsItems(ts[i], BarterChanges(Replace, cfg[1..], ts).value[i], TraderChildren(cfg[0].info, items[p].id));
    } else {
      ReplacePatchKeepsEntry(cfg[0], traders[i], p);
      assert cfg[1..][j - 1] == cfg[j];
      ReplaceFillsExistingStock(cfg[1..], ts, j - 1, i, p);
    }
  }

  /** One replace-mode record keeps the trader patchable and its stock
      entry `p` in place. */
  lemma ReplacePatchKeepsEntry(e: CfgEntry, t: Trader, p: nat)
    requires !Skipped(t) && p < |t.assort.value.items.value|
    ensures var r := PatchTrader(Replace, e, t);
      && r.Success? && !Skipped(r.value)
      && p < |r.value.assort.value.items.value|
      && r.value.assort.value.items.value[p] == t.assort.value.items.value[p]
  {
    var t1 := PatchTrader(Replace, e, t).value;
    var items := t.assort.value.items.value;
    assert t1.assort.value.items.value[..|items|][p] == items[p];
  }
}
