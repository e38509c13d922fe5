/** The shapes of the host server's records that the mod reads and writes:
    item instances, trader assorts, item templates, handbook entries and the
    content database. Fields the mod only copies are kept opaque. */
module Host {
  import opened Wrappers

  /** Stack and purchase-limit data of a trader stock entry. */
  datatype Upd = Upd(unlimitedCount: bool, stackObjectsCount: int, buyRestrictionMax: int, buyRestrictionCurrent: int)

  /** One item instance (the host's `Item`): its unique id, its template id,
      the unique id of the item it sits in and the slot or grid it sits in. */
  datatype Item = Item(id: string, tpl: string, parentId: string, slotId: string, upd: Option<Upd>)

  /** One line of a purchase cost: `count` of the item or currency `tpl`. */
  datatype SchemeItem = SchemeItem(tpl: string, count: int)

  /** A trader's stock: item instances, the cost of each stock entry and the
      loyalty level each stock entry needs. */
  datatype Assort = Assort(
    items: Option<seq<Item>>,
    barterScheme: map<string, seq<seq<SchemeItem>>>,
    loyalLevelItems: map<string, int>)

  datatype Trader = Trader(baseId: string, assort: Option<Assort>)

  datatype GridFilter = GridFilter(filter: seq<string>, excludedFilter: seq<string>)

  /** One grid of a container template. */
  datatype Grid = Grid(
    name: string, id: string, parent: string, proto: string,
    filters: seq<GridFilter>, minCount: int, maxCount: int, isSortingTable: bool, maxWeight: int,
    cellsH: int, cellsV: int)

  /** The properties of an item template the mod sets; `others` stands for
      every remaining property, copied verbatim. Weight is fractional and
      only ever copied. */
  datatype ItemProps = ItemProps(
    prefab: string, grids: seq<Grid>, weight: real, width: int, height: int,
    itemSound: string, backgroundColor: string, others: map<string, string>)

  datatype TemplateItem = TemplateItem(id: string, name: string, parent: string, proto: string, props: ItemProps)

  datatype HandbookItem = HandbookItem(id: string, parentId: string, price: int)

  /** The content tables the startup pass patches: item templates, flea
      prices, handbook entries and the English locale strings. */
  datatype Database = Database(
    items: map<string, TemplateItem>,
    prices: map<string, int>,
    handbook: seq<HandbookItem>,
    localeEn: map<string, string>)
}
