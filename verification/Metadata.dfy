/** Entity metadata: the declared fields the planner, the reconciler and CRUD are driven by. */
module Metadata {
  import opened Prelude

  datatype Kind =
    | KindId | KindString | KindNumber | KindBoolean | KindDate | KindDatetime
    | KindMoney | KindEnum | KindReference | KindJson

  datatype Storage = StorageNative | StorageColumn

  datatype Scope = ScopeTenant | ScopeGlobal

  datatype Field = Field(
    name: string,
    kind: Kind,
    indexed: bool,
    unique: bool,
    uniqueScope: Option<Scope>,
    refEntity: Option<string>,
    searchable: bool,
    searchMode: Option<string>,
    sortable: bool,
    storage: Option<Storage>)

  datatype UniqueConstraint = UniqueConstraint(fields: seq<string>, scope: Option<Scope>)

  datatype ListView = ListView(name: string, filters: seq<string>, defaultSort: Option<string>, maxLimit: nat)

  datatype Entity = Entity(
    name: string,
    table: string,
    fields: seq<Field>,
    listViews: seq<ListView>,
    uniqueConstraints: seq<UniqueConstraint>)

  predicate HasRealColumn(f: Field) {
    (f.kind == KindReference && f.refEntity.Some?) || f.storage == Some(StorageColumn)
  }

  /** The first declared field of that name. */
  function FindField(fields: seq<Field>, name: string): Option<Field> {
    if |fields| == 0 then None
    else if fields[0].name == name then Some(fields[0])
    else FindField(fields[1..], name)
  }

  predicate IsFts(f: Field) { f.searchable && f.searchMode == Some("fts") }
}
