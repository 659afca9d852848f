/** The table of buyers' qualification configs, which are their rule sets. */
module ConfigTable {
  /** The text of a UUID: 36 characters, none of them a comma.  UUIDs are ordered as their texts are. */
  type Uuid = s: string | |s| == 36 && ',' !in s witness "00000000-0000-0000-0000-000000000000"

  datatype Config = Config(id: Uuid, buyerId: Uuid, ruleSetName: string, enabled: bool, isActive: bool, createdAt: int)

  type Table = map<Uuid, Config>

  /** The primary key. */
  predicate Keyed(rows: Table) {
    forall id <- rows :: rows[id].id == id
  }

  /** No buyer has two active configs. */
  predicate OneActive(rows: Table) {
    forall a <- rows, b <- rows | rows[a].isActive && rows[b].isActive && rows[a].buyerId == rows[b].buyerId :: a == b
  }

  /** The ids of a buyer's active configs. */
  function ActiveOf(rows: Table, buyer: Uuid): set<Uuid> {
    set id <- rows | rows[id].buyerId == buyer && rows[id].isActive
  }
}
