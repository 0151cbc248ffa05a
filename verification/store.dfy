/** The two DynamoDB tables, as maps from primary key to item. */
module Store {
  import opened Json

  /** The attributes the collectors write. */
  datatype Attr =
    | Id | Date | Name | SourceId
    | NumZones | NumAreas | NumGroups | NumRegions | NumMeetings
    | NumInPerson | NumVirtual | NumHybrid

  /** The attribute's name in the stored item. */
  function AttrName(a: Attr): string {
    match a
    case Id => "id"
    case Date => "date"
    case Name => "name"
    case SourceId => "source_id"
    case NumZones => "num_zones"
    case NumAreas => "num_areas"
    case NumGroups => "num_groups"
    case NumRegions => "num_regions"
    case NumMeetings => "num_meetings"
    case NumInPerson => "num_in_person"
    case NumVirtual => "num_virtual"
    case NumHybrid => "num_hybrid"
  }

  /** A stored item: attribute to attribute value. */
  type Item = map<Attr, Value>

  /** A table: primary-key value to the item stored under it. A `put_item`
      is the upsert `t[key := item]`. */
  type Table = map<string, Item>

  /** `json.dumps` accepts every attribute value of the item. */
  predicate ItemDumpable(item: Item) {
    forall a :: a in item ==> Dumpable(item[a])
  }

  /** `json.dumps` accepts every row of the table. */
  predicate TableDumpable(t: Table) {
    forall k :: k in t ==> ItemDumpable(t[k])
  }

  /** Putting a row `json.dumps` accepts keeps the whole table acceptable. */
  lemma PutDumpable(t: Table, k: string, item: Item)
    requires TableDumpable(t) && ItemDumpable(item)
    ensures TableDumpable(t[k := item])
  {
  }

  /** Every item carries its own primary key as the string attribute `a`:
      the aggregate table is keyed by `date`, the per-source table by `id`. */
  predicate KeyedBy(t: Table, a: Attr) {
    forall k :: k in t ==> a in t[k] && t[k][a] == JStr(k)
  }

  /** Putting an item that carries its own key keeps a table keyed. */
  lemma PutKeyed(t: Table, k: string, item: Item, a: Attr)
    requires KeyedBy(t, a) && a in item && item[a] == JStr(k)
    ensures KeyedBy(t[k := item], a)
  {
  }
}
