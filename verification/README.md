# Custom First Aid Kits — a Dafny model

This project models the core of the Custom First Aid Kits server mod. The mod
turns the stock first-aid kits into containers with grids. It fills newly
generated kits with a configured bundle of medical items and sells filled
kits at traders. The mod runs in one of two modes:

- **replace**: the original kit templates are rebuilt in place.
- **additive**: new kits with their own ids sit next to the originals.

The modules follow the mod's source files:

| module | models |
|---|---|
| `MedkitTpl` | the two kit-id enumerations, the custom-to-original map and the "is a managed kit" tests (`types/Item.ts`) |
| `ItemCfg` | the kit configuration table and the two shipped entries (`itemCfg.ts`), plus identity resolution: which record a live id uses in each mode |
| `GridHelper` | slot counts, grid names and the in-order packing loop |
| `MedkitHelper` | the loot-injection hook used by the map loot generator |
| `CustomBotLootGenerator` | the same hook inside the bot inventory generator, after the host's own call |
| `BarterId` | the stock-entry id encoding `{id}99{Buy or Barter}99{index}` and its decoding by `split("99")[1]` |
| `ItemFactory` | `createItems` (template, price, handbook and locale tables) and `barterChanges` (trader stock, barter schemes, loyalty gates, filled kits) |
| `Host` | the shapes of the host records the core reads and writes |
| `Strings`, `Wrappers` | decimal rendering and parsing, JavaScript `split`, ASCII lower-casing, `Option` and `Result` |

Host tables are immutable values. Each operation returns the patched tables.
Where the source dereferences a failed lookup, the model returns an error
instead.

The id generator is a parameter `ids`: a finite supply of fresh ids.
Running out of ids stands for the generator throwing, which is the only way
the packing loop's `try` block can fail.

Host enumeration members (item templates, currencies, traders, base classes)
are symbolic strings such as `"ItemTpl.MEDICAL_ARMY_BANDAGE"`. The two keys
of the configuration table are the original kit ids from `types/Item.ts`.

The packer is modelled as a state machine `GridHelper.Placements` that
follows the loop's two counters. `GridHelper.Locate` is an independent
closed-form reference: item `k` goes into the first grid whose running
total of slots exceeds `k`. Lemmas prove the two agree whenever every grid
has at least one slot. They also describe the other cases: overflow past
the last grid, and a grid with no slots.

## Model

| member | source | states |
|---|---|---|
| MedkitTpl.IsCustomMedkitItemTpl | src/utils/CustomBotLootGenerator.ts:106-109 | an id is a custom kit id exactly when it is a key of the custom-to-original map |
| MedkitTpl.IsOriginalMedkitItemTpl | src/utils/CustomBotLootGenerator.ts:111-114 | an id is an original kit id exactly when some custom id maps to it |
| MedkitTpl.OriginalOf | src/utils/types/Item.ts:26-33 | the reverse lookup is defined exactly on the custom ids and always yields an original id |
| MedkitTpl.IsManaged | src/utils/MedkitHelper.ts:44 | in replace mode the original kit ids are managed, in additive mode the custom ones, and no other id |
| MedkitTpl.CustomOf | src/utils/types/Item.ts:5-23 | the positional pairing of the two enumerations is defined exactly on the original ids and yields a custom id |
| MedkitTpl.EnumsHaveFiveDistinctValues | src/utils/types/Item.ts:5-23 | each enumeration has five pairwise distinct values |
| MedkitTpl.EnumsDisjoint | src/utils/types/Item.ts:5-23 | no id is in both enumerations, so no id is managed in both modes |
| MedkitTpl.CustomToOriginalIsBijection | src/utils/types/Item.ts:25-33 | the map covers every custom id, is injective, and is onto the original ids |
| MedkitTpl.IdentityRoundTrips | src/utils/types/Item.ts:5-33 | the map and the positional pairing are inverse to each other in both directions |
| ItemCfg.Lookup | src/utils/MedkitHelper.ts:24 | the table lookup is absent exactly when no entry has the key, and otherwise returns an entry with that key |
| ItemCfg.LookupFindsEntry | src/utils/itemCfg.ts:66-137 | with distinct keys, every entry is found by its own key |
| ItemCfg.ResolveConfig | src/utils/MedkitHelper.ts:24 | replace mode finds no record exactly when no entry has the id as key; additive mode finds none exactly when the id is not a custom kit id or no entry has its original as key; a record found belongs to an entry keyed by the id (replace) or by the id's original (additive) |
| ItemCfg.ResolveCanonicalId | src/utils/MedkitHelper.ts:24 | the id a kit lives under in either mode resolves back to that kit's own record |
| ItemCfg.ShippedBundledItemsAllowed | src/utils/itemCfg.ts:35-137 | the allowed list is the union of the five groups, and every bundled item of every shipped kit is in its allowed list |
| ItemCfg.ShippedIdentities | src/utils/itemCfg.ts:66-137 | the shipped keys are distinct original kit ids, and each kit's custom id maps back to its key |
| ItemCfg.ShippedResolution | src/utils/itemCfg.ts:66-137 | both shipped kits resolve to their own records in both modes |
| ItemCfg.ShippedUnconfiguredKits | src/utils/itemCfg.ts:66-137 | the car, Salewa and Grizzly kits are managed but have no record in either mode |
| ItemCfg.ShippedEconomics | src/utils/itemCfg.ts:89-135 | both kits have a bundle price; only the IFAK has a custom barter, and it has a barter loyalty level |
| Strings.ParseNatToString | src/utils/GridHelper.ts:32 | the decimal rendering of an index parses back to the index |
| Strings.Split | src/utils/ItemFactory.ts:278 | splitting yields at least one piece and no piece contains the separator; the first piece is everything before the leftmost occurrence (the whole string when there is none), and there is a second piece exactly when the separator occurs |
| Strings.SplitJoin | src/utils/ItemFactory.ts:278 | joining the pieces of a split with the separator restores the string |
| Strings.SplitCutsLeftmost | src/utils/ItemFactory.ts:278 | the cut is at the leftmost occurrence: "999" splits on "99" into "" and "9" |
| Strings.FindFromShift | src/utils/ItemFactory.ts:278 | searching a suffix finds the same occurrence as searching the whole string from where the suffix starts |
| GridHelper.GetGridNameId | src/utils/GridHelper.ts:30-33 | a grid name is the kit's custom id, then "Grid", then a non-empty run of decimal digits |
| GridHelper.GetGridSlotCounts | src/utils/GridHelper.ts:17-25 | one count per grid, in grid order, each equal to width times height |
| GridHelper.GridNameIdRoundTrip | src/utils/GridHelper.ts:30-33 | a grid name parses back to its index |
| GridHelper.GridNameIdInjective | src/utils/GridHelper.ts:30-33 | distinct indices give distinct grid names |
| GridHelper.Placements | src/utils/GridHelper.ts:49-67 | the loop yields one placement per bundled item; GridHelper.PlacementsFollowLocate pins down where each one goes |
| GridHelper.Children | src/utils/GridHelper.ts:53-58 | record k gets the k-th fresh id, the k-th bundled template, the given parent and no stack data |
| GridHelper.Locate | src/utils/GridHelper.ts:49-67 | the reference placement of item k: the grid index plus the slots of the earlier grids add up to k, the slot is within the grid, and the placement runs past the last grid exactly when k reaches the total capacity |
| GridHelper.PlacementsFollowLocate | src/utils/GridHelper.ts:49-67 | from any reachable counter state, the loop places each item where the reference placement puts it |
| GridHelper.PackingFillsInOrder | src/utils/GridHelper.ts:49-67 | from the initial state, item k is placed at the reference placement of k: grids fill strictly in order |
| GridHelper.PlacementsMonotone | src/utils/GridHelper.ts:59-67 | grid indices never decrease along the loop, and rise by at most one per item |
| GridHelper.EmptyGridAbsorbsRest | src/utils/GridHelper.ts:59-67 | once the loop reaches a grid with no slots, every remaining item goes into that grid |
| GridHelper.AddItemsToGridSlots | src/utils/GridHelper.ts:41-76 | success exactly when the id supply covers the bundle; the caller's array is kept as a prefix; one record per bundled item (per available id on failure) with a fresh id, the bundled template in order, and the given parent; a kit without a bundle appends nothing |
| GridHelper.AddItemsFillsInOrder | src/utils/GridHelper.ts:51-58 | when every grid has a slot, appended record k names the grid of the reference placement of k |
| GridHelper.OverflowIsSilent | src/utils/GridHelper.ts:59-69 | with more bundled items than slots, packing still succeeds, and every surplus record names the grid one past the last |
| GridHelper.AppendedGridsNondecreasing | src/utils/GridHelper.ts:51-67 | every appended record names a well-formed grid, and the grid indices never decrease along the array |
| GridHelper.ShippedKitsFitExactly | src/utils/itemCfg.ts:66-137 | every shipped kit has slots in every grid and exactly as many slots as bundled items |
| MedkitHelper.AddMedkitLoot | src/utils/MedkitHelper.ts:13-36 | fails exactly when the id has no record; otherwise every record is parented to the kit instance, and the result is empty when ids run out or is one record per bundled item in order |
| MedkitHelper.ConditionallyAddMedkitLoot | src/utils/MedkitHelper.ts:42-51 | an unmanaged id leaves the array unchanged; a managed id keeps the array as a prefix, appends only the kit's packed children parented to the first record, and fails on an empty array or an id without a record |
| MedkitHelper.IfakInjectionScenario | src/utils/MedkitHelper.ts:42-51 | an additive IFAK gets its bandage and CALOK-B in the first grid and its tourniquet in the second, after the root record |
| MedkitHelper.UnconfiguredKitFails | src/utils/MedkitHelper.ts:24-26 | a managed kit without a record reaches the failed lookup in both modes |
| CustomBotLootGenerator.AddMedkitLoot | src/utils/CustomBotLootGenerator.ts:119-134 | fails exactly when the id has no record; otherwise the result is empty on packing failure and the packed records on success |
| CustomBotLootGenerator.AddRequiredChildItemsToParent | src/utils/CustomBotLootGenerator.ts:85-104 | an unmanaged template leaves the host's array as it is; otherwise the host's records are kept as a prefix and every added record is parented to the first one |
| CustomBotLootGenerator.HooksAgree | src/utils/CustomBotLootGenerator.ts:94-103 | the bot hook and the map-loot hook produce the same array for the same template and input |
| BarterId.NoNineIsDecodable | src/utils/ItemFactory.ts:276-280 | a base id without the digit 9 decodes unambiguously |
| BarterId.GetBarterId | src/utils/ItemFactory.ts:271-274 | the stock-entry id starts with the base id, immediately followed by the delimiter "99" |
| BarterId.GetBarterSchemeDetails | src/utils/ItemFactory.ts:276-280 | a type is read exactly when the id contains "99", and the type read never contains "99"; BarterId.DecoderReadsSecondPiece says which piece it is |
| BarterId.DecoderReadsSecondPiece | src/utils/ItemFactory.ts:276-280 | for every id containing "99", the decoder returns the text between the first "99" and the next non-overlapping "99", or up to the end of the id when there is none |
| BarterId.DelimiterAtBase | src/utils/ItemFactory.ts:271-279 | the first "99" of an id built on a decodable base is the one right after the base |
| BarterId.BarterIdInjective | src/utils/ItemFactory.ts:271-274 | two stock-entry ids built on decodable bases are equal only when the bases and the types are |
| BarterId.BarterIdRoundTrip | src/utils/ItemFactory.ts:271-280 | decoding an encoded stock-entry id recovers its type, for every base id without "99" that does not end in 9 |
| BarterId.BaseEndingInNineMisreads | src/utils/ItemFactory.ts:271-280 | a base id ending in 9 decodes to the wrong type, for example "9Buy" |
| ItemFactory.BuildGrids | src/utils/ItemFactory.ts:96-118 | grid i is named after its index, is parented to the live id, filters on the allowed list, and has the configured size |
| ItemFactory.NewItem | src/utils/ItemFactory.ts:79-118 | the kit's template has the live id, the simple-container class, the custom id as name, the configured weight and grids, the original kit's prefab, size, sound and background, and the SICC's other properties |
| ItemFactory.FindHandbookIndex | src/utils/ItemFactory.ts:131-133 | the index of the first handbook entry with the id, or -1 exactly when no entry has it |
| ItemFactory.CreateItem | src/utils/ItemFactory.ts:61-151 | fails exactly when the SICC, the original kit, or (replace mode) the handbook entry is missing. Otherwise it writes the kit's template (clone of the SICC, original looks and size, configured weight and grids) and its price at the live id, leaving other keys unchanged. Replace mode changes only the first handbook price; additive mode appends one handbook entry and exactly the three locale keys |
| ItemFactory.CreateItems | src/utils/ItemFactory.ts:59-152 | on success every kit's live id is in the item and price tables, and no host key is lost |
| ItemFactory.CreateItemsSucceeds | src/utils/ItemFactory.ts:64-134 | the pass fails only on a missing SICC, original kit, or replace-mode handbook entry |
| ItemFactory.CreateItemsPrices | src/utils/ItemFactory.ts:126 | with distinct live ids, each kit ends with its configured price |
| ItemFactory.CreateItemsKeepsPrices | src/utils/ItemFactory.ts:124-126 | a price that no later entry writes survives the pass |
| ItemFactory.CreateItemsReplaceKeepsCatalogue | src/utils/ItemFactory.ts:128-135 | replace mode never lengthens the handbook and never touches the locale |
| ItemFactory.CreateItemsKeepsItem | src/utils/ItemFactory.ts:124 | a template that no later entry writes survives the pass |
| ItemFactory.CreateItemsTemplates | src/utils/ItemFactory.ts:79-124 | with distinct live ids, each kit ends with a template that carries its live id, its configured name and weight, and its configured grids |
| ItemFactory.LocaleKeysDisjoint | src/utils/ItemFactory.ts:147-149 | two different ids never share any of their three locale keys |
| ItemFactory.CreateItemsKeepsLocale | src/utils/ItemFactory.ts:146-149 | a locale string that no record's three keys cover survives the additive pass |
| ItemFactory.CreateItemsAdditiveLocale | src/utils/ItemFactory.ts:146-149 | with pairwise disjoint locale keys, additive mode leaves every kit with its configured name, short name and description |
| ItemFactory.FirstLocaleKept | src/utils/ItemFactory.ts:146-149 | the first record's three locale strings survive the records after it |
| ItemFactory.ShippedLiveIds | src/utils/ItemFactory.ts:64-65 | the shipped kits live under their original ids in replace mode and under CustomIFAK and CustomAFAK in additive mode; these ids are distinct, decodable and give disjoint locale keys |
| ItemFactory.ShippedKitsRegistered | src/utils/ItemFactory.ts:59-152 | given the SICC and both original kits, both shipped kits end with their configured templates, and in additive mode with their configured locale strings |
| ItemFactory.HandbookEntries | src/utils/ItemFactory.ts:139-143 | one handbook entry per record, in order, with the record's id, the medkits category as parent, and the record's price |
| ItemFactory.CreateItemsAdditiveHandbook | src/utils/ItemFactory.ts:136-150 | additive mode appends exactly the records' handbook entries, in table order, after the untouched host entries |
| ItemFactory.ShippedCreateItems | src/utils/ItemFactory.ts:59-152 | given the SICC and both original kits, the shipped table registers both kits at 16000 and 28000 |
| ItemFactory.MatchingIds | src/utils/ItemFactory.ts:173-182 | an id is collected exactly when some stock entry with that id sells the kit |
| ItemFactory.MatchingIdsAppend | src/utils/ItemFactory.ts:175-181 | collecting over a concatenation collects over each part in turn |
| ItemFactory.LoyaltyLookup | src/utils/ItemFactory.ts:234 | a loyalty level exists exactly for "buy", and for "barter" when one is configured |
| ItemFactory.BarterEntry | src/utils/ItemFactory.ts:226-234 | an undecodable id fails; a decoded "Barter" gets the configured custom barter; any other type gets the bundle price in the configured currency |
| ItemFactory.BuyEntry | src/utils/ItemFactory.ts:186-201 | the buy entry of a decodable kit sells for the bundle price at the buy loyalty level, and fails exactly when no bundle price is configured |
| ItemFactory.BarterEntryOfBarter | src/utils/ItemFactory.ts:202-218 | the barter entry of a decodable kit trades for the custom barter at the barter loyalty level, and fails exactly when that level is missing |
| ItemFactory.WriteBarterDetails | src/utils/ItemFactory.ts:221-235 | succeeds exactly when every id's entry does, and never touches the item list |
| ItemFactory.WriteBarterDetailsWrites | src/utils/ItemFactory.ts:227-234 | every listed id ends with its entry's scheme and loyalty level |
| ItemFactory.WriteBarterDetailsKeeps | src/utils/ItemFactory.ts:227-234 | ids not in the list keep their scheme and loyalty level, present or absent |
| ItemFactory.TraderChildIds | src/utils/ItemFactory.ts:245 | one child id per bundled item |
| ItemFactory.TraderChildIdsDistinct | src/utils/ItemFactory.ts:245 | the child ids of one kit are pairwise distinct |
| ItemFactory.TraderChildren | src/utils/ItemFactory.ts:242-259 | one child per bundled item, in order, parented to the stock entry |
| ItemFactory.TraderChildrenLayout | src/utils/ItemFactory.ts:240-259 | a trader kit uses the same in-order grid layout as a generated kit, with child k named after the stock entry and k |
| ItemFactory.ChildrenOfAll | src/utils/ItemFactory.ts:221-265 | one child per bundled item per listed stock entry, each parented to one of the listed entries; a kit without a bundle gets none |
| ItemFactory.ChildrenOfAllAppend | src/utils/ItemFactory.ts:221-259 | the children for a concatenated id list are those of the first part followed by those of the second |
| ItemFactory.ChildrenOfAllBlock | src/utils/ItemFactory.ts:221-259 | the children of stock entry b form one contiguous block, after the blocks of the entries before it and before those of the entries after |
| ItemFactory.ChildrenOfAllContains | src/utils/ItemFactory.ts:221-259 | every child of every listed stock entry is among the appended children |
| ItemFactory.StockEntries | src/utils/ItemFactory.ts:189-216 | one stock entry per id, in order, selling the kit |
| ItemFactory.NewStockIds | src/utils/ItemFactory.ts:186-219 | one or two new stock ids, two exactly when a custom barter is configured |
| ItemFactory.StockIds | src/utils/ItemFactory.ts:171-220 | in additive mode, a trader other than the seller fills no kits |
| ItemFactory.PatchTrader | src/utils/ItemFactory.ts:167-266 | a trader without assort items is skipped. Otherwise the trader keeps its identity and the old items as a prefix. Replace mode never fails and leaves schemes and loyalty gates alone. Additive mode leaves every non-seller unchanged, and succeeds exactly when every new entry's details can be written |
| ItemFactory.AdditiveSellerPatch | src/utils/ItemFactory.ts:183-235 | at the seller, additive mode stocks a buy entry (and a barter entry when configured), each priced and gated as configured, succeeds exactly when the record is patchable, and keeps every other scheme |
| ItemFactory.ReplacePatch | src/utils/ItemFactory.ts:173-182 | replace mode always succeeds and appends children only under existing stock entries that sell the kit |
| ItemFactory.PatchTraders | src/utils/ItemFactory.ts:167-266 | succeeds exactly when every trader's patch does, one result per trader, in order |
| ItemFactory.BarterChanges | src/utils/ItemFactory.ts:155-268 | on success there is one trader per input trader |
| ItemFactory.BarterChangesExtends | src/utils/ItemFactory.ts:155-268 | every trader keeps its identity and assort shape, and only gains items |
| ItemFactory.ReplaceKeepsEconomy | src/utils/ItemFactory.ts:173-235 | replace mode never fails and never changes a scheme or a loyalty gate |
| ItemFactory.NonSellersUntouched | src/utils/ItemFactory.ts:183-220 | in additive mode, a trader that sells no configured kit is left exactly as it was |
| ItemFactory.PatchableSucceeds | src/utils/ItemFactory.ts:221-235 | a table whose every record is patchable never fails |
| ItemFactory.ShippedBarterChangesSucceed | src/utils/ItemFactory.ts:155-268 | the shipped table patches any traders, in either mode, without failing |
| ItemFactory.ExtendsKeepsItems | src/utils/ItemFactory.ts:189-249 | a trader that only gains items keeps every item it held |
| ItemFactory.NewStockIdsDisjoint | src/utils/ItemFactory.ts:186-218 | kits with different decodable custom ids get disjoint stock ids |
| ItemFactory.PatchTraderKeepsSale | src/utils/ItemFactory.ts:221-235 | a stocked entry with its scheme and loyalty level survives a record that does not write that entry |
| ItemFactory.BarterChangesKeepsSale | src/utils/ItemFactory.ts:155-268 | a stocked entry with its scheme and loyalty level survives the whole pass when no record writes that entry |
| ItemFactory.AdditiveStocksSellers | src/utils/ItemFactory.ts:183-235 | with distinct decodable custom ids, additive mode leaves each seller stocking each of its kits under the buy entry for the bundle price at the buy loyalty level, and under the barter entry for the custom barter at the barter loyalty level when one is configured |
| ItemFactory.SellerSalesKept | src/utils/ItemFactory.ts:183-235 | the buy and barter entries the first record writes at a seller survive the rest of the table |
| ItemFactory.ReplaceFillsExistingStock | src/utils/ItemFactory.ts:173-182 | replace mode never fails and leaves every stock entry a trader had that sells a configured kit with all of that kit's children |
| ItemFactory.ReplacePatchFillsStock | src/utils/ItemFactory.ts:173-259 | one replace-mode record gives every stock entry selling the kit all of the kit's children |
| ItemFactory.ReplacePatchKeepsEntry | src/utils/ItemFactory.ts:167-189 | one replace-mode record keeps every existing stock entry at its position |

## Left out

- Logging, the mod's entry point, the map loot generator that calls the hook, the mode's configuration file and the host services are not part of this model. The mode and the configuration table are parameters.
- The host's own `addRequiredChildItemsToParent` is not modelled. The hook's input is the array as the host leaves it.
- ItemFactory.CreateItem: a missing SICC, original kit or replace-mode handbook entry is an error result. In the source all three are crashes. A missing original kit or SICC is logged first and then `undefined` is dereferenced. A missing handbook entry is not logged: `findIndex` gives -1 and the price write through `Items[-1]` throws. Writes made earlier in the same pass are not represented, because an error discards them.
- ItemFactory.BarterEntry: a missing bundle price or loyalty level is an error result. The source would store `undefined` in the trader table instead.
- ItemFactory.BarterChanges: an undecodable stock-entry id and a decoded "Barter" without a custom barter are errors because the source throws there (spreading an absent barter at ItemFactory.ts:227, lower-casing an absent type at :234). The error discards the traders patched earlier in the pass, while the source keeps those writes.
- ItemFactory.BarterChanges: a missing bundle price or loyalty level is also an error here. The source does not throw on these: it stores `undefined` in the scheme or loyalty table and the pass carries on.
- ItemFactory.BarterChanges: the trader's barter scheme and loyalty tables are assumed to exist. The source would throw on writing into an absent table.
- GridHelper.AddItemsToGridSlots: fresh ids come from a finite supply. Running out stands for the host generator throwing; its uniqueness is the host's promise and is not modelled.
- GridHelper.AddItemsToGridSlots: the packer does not fail when the grids have fewer slots than the bundle. It keeps writing records that name a grid past the last one, and the model does the same (GridHelper.OverflowIsSilent).
- MedkitHelper.AddMedkitLoot: the source calls `addBundledItemsToGridSlots`, which the grid helper does not define. It is modelled as the defined `addItemsToGridSlots`.
- MedkitTpl.IsCustomMedkitItemTpl: the map-loot hook imports these tests from `types/Item.ts`, which does not define them. Both hooks use the generator's private versions.
- A null item array (`items?.push`) is not modelled. Arrays are sequences, so they always exist.
- The code has no "empty" stock variant, does not extend the whitelists of other containers, and does not skip a misconfigured record and carry on, so none of these is modelled.
- Weights are reals that are copied but never computed with. Host enumeration members are symbolic strings, not their real ids.
- Order of object keys: the configuration table and the traders are sequences in declaration order.
- ItemCfg.Lookup: the configuration table is a sequence that could repeat a key. The lookup returns the first entry with the key, whereas a JavaScript object literal keeps only the last value. The whole-table lemmas therefore require distinct live ids (ItemFactory.DistinctLiveIds) or distinct keys (ItemCfg.KeysDistinct), and ItemCfg.ShippedIdentities proves the shipped table has distinct keys.

