/** What the snapshot answers, said of the rows of the policies table, the roles of the caller and the scope of the
    token, without the groups the snapshot sorts them into. */
module SnapshotRows {
  import opened Prelude
  import opened Json
  import opened Permission
  import opened Snapshot

  // ---------------------------------------------------------------- the scope of a token

  /** The name of an action in policies and in scopes: creating and updating are both writing. */
  function PolicyName(a: EntityAction): string {
    if a == Read then "read" else if a == Create then "create" else if a == Update then "update"
    else if a == Delete then "delete" else "transition"
  }

  function ScopeName(a: EntityAction): string {
    if a == Read then "read" else if a == Create || a == Update then "write" else if a == Delete then "delete"
    else "transition"
  }

  /** The scope is an attribute of the request: a list of texts. Anything else is no scope. */
  predicate CarriesScope(ctx: Context) {
    && "oauthScope" in ctx.attributes
    && var v := ctx.attributes["oauthScope"];
       v == JNull || (v.JArr? && forall i :: 0 <= i < |v.items| ==> v.items[i].JStr? || v.items[i] == JNull)
  }

  /** A request without a scope may do anything its policies allow; one with a scope needs the verb with the entity's
      name or with a star. */
  predicate InScope(ctx: Context, entity: string, a: EntityAction) {
    CarriesScope(ctx) ==>
      var v := ctx.attributes["oauthScope"];
      v.JArr? && exists i :: 0 <= i < |v.items| && v.items[i].JStr?
                             && (v.items[i].s == ScopeName(a) + ":*" || v.items[i].s == ScopeName(a) + ":" + entity)
  }

  lemma ScopeExactly(ctx: Context, entity: string, a: EntityAction)
    ensures ScopePermits(ctx, entity, a) <==> InScope(ctx, entity, a)
  {
    assert ScopeVerb(a) == ScopeName(a);
    NoEmptyToken(ScopeName(a), entity);
    if CarriesScope(ctx) && ctx.attributes["oauthScope"].JArr? {
      var items, tokens := ctx.attributes["oauthScope"].items, OAuthScope(ctx).value;
      assert |tokens| == |items|;
      forall i | 0 <= i < |items| ensures tokens[i] == if items[i].JStr? then items[i].s else "" {}
    }
  }

  lemma NoEmptyToken(verb: string, entity: string)
    ensures "" != verb + ":*" && "" != verb + ":" + entity
  {
    assert |verb + ":*"| > 0 && |verb + ":" + entity| > 0;
  }

  // ---------------------------------------------------------------- verdicts by rows

  /** Some matching row among those picked out allows, and none denies. */
  ghost predicate AllowedBy(
    codec: Codec, rows: seq<PolicyRow>, pick: PolicyRow -> bool, ctx: Context, record: Option<Json>)
  {
    && (exists row :: row in rows && pick(row) && row.effect == Allowing && Matches(codec, row, ctx, record))
    && (forall row :: row in rows && pick(row) && Matches(codec, row, ctx, record) ==> row.effect == Allowing)
  }

  lemma AllowedByKept(
    codec: Codec, rows: seq<PolicyRow>, pick: PolicyRow -> bool, ctx: Context, record: Option<Json>)
    ensures VerdictOf(codec, Keep(rows, pick), ctx, record) == AllowVerdict
            <==> AllowedBy(codec, rows, pick, ctx, record)
  {
    hide Matches, Keep;
    forall row ensures row in Keep(rows, pick) <==> row in rows && pick(row) { KeepHas(rows, pick, row); }
  }

  lemma SameRowsAllowed(
    codec: Codec, a: seq<PolicyRow>, b: seq<PolicyRow>, ctx: Context, record: Option<Json>, p: PolicyRow -> bool,
    q: PolicyRow -> bool)
    requires forall row :: row in a && p(row) <==> row in b && q(row)
    ensures AllowedBy(codec, a, p, ctx, record) <==> AllowedBy(codec, b, q, ctx, record)
  {
    hide Matches;
  }

  lemma LoadedRows(table: seq<PolicyRow>, tenant: string, entity: string, loaded: seq<PolicyRow>, row: PolicyRow)
    requires LoadAllPolicies(table, tenant, entity, loaded)
    ensures row in loaded <==> row in table && row.tenant == tenant && row.entity == entity
  {
    hide Keep;
    KeepHas(table, r => BelongsTo(r, tenant, entity), row);
    assert row in loaded <==> row in multiset(loaded);
    assert row in Keep(table, r => BelongsTo(r, tenant, entity))
      <==> row in multiset(Keep(table, r => BelongsTo(r, tenant, entity)));
  }

  // ---------------------------------------------------------------- the three checks

  /** A row about a whole entity, and about one of its records. */
  predicate AboutEntity(row: PolicyRow, tenant: string, entity: string, action: string) {
    row.tenant == tenant && row.entity == entity && row.field == "" && row.subject == "context" && row.action == action
  }

  predicate AboutRecord(row: PolicyRow, tenant: string, entity: string, action: string) {
    row.tenant == tenant && row.entity == entity && row.field == "" && row.subject == "record" && row.action == action
  }

  predicate AboutReading(row: PolicyRow, tenant: string, entity: string, field: string) {
    row.tenant == tenant && row.entity == entity && row.field == field && row.action == "read"
  }

  /** An action on an entity is permitted if and only if the token's scope covers it and the caller is an admin or the
      tenant's own context rows for this entity and action allow it. */
  lemma EntityActionExactly(
    codec: Codec, table: seq<PolicyRow>, tenant: string, entity: string, loaded: seq<PolicyRow>, s: PermissionSnapshot,
    ctx: Context, a: EntityAction)
    requires LoadAllPolicies(table, tenant, entity, loaded) && Groups(s, loaded)
    ensures CanPerformEntityAction(codec, s, ctx, entity, a) <==>
            InScope(ctx, entity, a)
            && ("admin" in ctx.roles
                || AllowedBy(codec, table, row => AboutEntity(row, tenant, entity, PolicyName(a)), ctx, None))
  {
    hide Keep, AllowedBy, LoadAllPolicies, VerdictOf, InScope, ScopePermits;
    ScopeExactly(ctx, entity, a);
    var name := ActionName(a);
    assert name == PolicyName(a);
    var p := (row: PolicyRow) => IsContextLevel(row, name);
    var q := (row: PolicyRow) => AboutEntity(row, tenant, entity, name);
    assert ContextRows(loaded, name) == Keep(loaded, p) by { ContextRowsKept(loaded, name, p); }
    AllowedByKept(codec, loaded, p, ctx, None);
    forall row ensures row in loaded && p(row) <==> row in table && q(row) {
      LoadedRows(table, tenant, entity, loaded, row);
    }
    SameRowsAllowed(codec, loaded, table, ctx, None, p, q);
    SameRowsAllowed(codec, table, table, ctx, None, q, row => AboutEntity(row, tenant, entity, PolicyName(a)));
  }

  lemma {:induction false} KeepSame(rows: seq<PolicyRow>, p: PolicyRow -> bool, q: PolicyRow -> bool)
    requires forall row :: p(row) == q(row)
    ensures Keep(rows, p) == Keep(rows, q)
    decreases |rows|
  {
    if |rows| > 0 { KeepSame(rows[..|rows| - 1], p, q); }
  }

  lemma ContextRowsKept(rows: seq<PolicyRow>, action: string, p: PolicyRow -> bool)
    requires forall row :: p(row) == IsContextLevel(row, action)
    ensures ContextRows(rows, action) == Keep(rows, p)
  {
    KeepSame(rows, row => IsContextLevel(row, action), p);
  }

  lemma RecordRowsKept(rows: seq<PolicyRow>, action: string, p: PolicyRow -> bool)
    requires forall row :: p(row) == IsRecordLevel(row, action)
    ensures RecordRows(rows, action) == Keep(rows, p)
  {
    KeepSame(rows, row => IsRecordLevel(row, action), p);
  }

  lemma NoneKept(rows: seq<PolicyRow>, p: PolicyRow -> bool)
    ensures Keep(rows, p) == [] <==> forall row :: row in rows ==> !p(row)
  {
    forall row ensures row in Keep(rows, p) <==> row in rows && p(row) { KeepHas(rows, p, row); }
    if Keep(rows, p) != [] { assert Keep(rows, p)[0] in Keep(rows, p); }
  }

  /** A record passes if and only if the caller is an admin, the tenant has no record row for this entity and action, or
      those rows allow this record. */
  lemma RecordCheckExactly(
    codec: Codec, table: seq<PolicyRow>, tenant: string, entity: string, loaded: seq<PolicyRow>, s: PermissionSnapshot,
    ctx: Context, record: Record, a: EntityAction)
    requires LoadAllPolicies(table, tenant, entity, loaded) && Groups(s, loaded)
    ensures CanPerformRecordCondition(codec, s, ctx, record, a) <==>
            || "admin" in ctx.roles
            || (forall row :: row in table ==> !AboutRecord(row, tenant, entity, PolicyName(a)))
            || AllowedBy(codec, table, row => AboutRecord(row, tenant, entity, PolicyName(a)), ctx, Some(JObj(record)))
  {
    hide Keep, AllowedBy, LoadAllPolicies, VerdictOf;
    var name := ActionName(a);
    assert name == PolicyName(a);
    var p := (row: PolicyRow) => IsRecordLevel(row, name);
    var q := (row: PolicyRow) => AboutRecord(row, tenant, entity, name);
    assert RecordRows(loaded, name) == Keep(loaded, p) by { RecordRowsKept(loaded, name, p); }
    AllowedByKept(codec, loaded, p, ctx, Some(JObj(record)));
    NoneKept(loaded, p);
    forall row ensures row in loaded && p(row) <==> row in table && q(row) {
      LoadedRows(table, tenant, entity, loaded, row);
    }
    SameRowsAllowed(codec, loaded, table, ctx, Some(JObj(record)), p, q);
    SameRowsAllowed(codec, table, table, ctx, Some(JObj(record)), q,
                    row => AboutRecord(row, tenant, entity, PolicyName(a)));
  }

  /** A field of a record can be read if and only if the caller is an admin, no row is about reading it, or those rows
      allow this record. */
  lemma ReadableExactly(
    codec: Codec, table: seq<PolicyRow>, tenant: string, entity: string, loaded: seq<PolicyRow>, s: PermissionSnapshot,
    ctx: Context, record: Record, field: string)
    requires LoadAllPolicies(table, tenant, entity, loaded) && Groups(s, loaded) && field != ""
    ensures Readable(codec, s, ctx, record, field) <==>
            || "admin" in ctx.roles
            || (forall row :: row in table ==> !AboutReading(row, tenant, entity, field))
            || AllowedBy(codec, table, row => AboutReading(row, tenant, entity, field), ctx, Some(JObj(record)))
  {
    hide Keep, AllowedBy, LoadAllPolicies, VerdictOf;
    var p, q := (row: PolicyRow) => IsReadOf(row, field), (row: PolicyRow) => AboutReading(row, tenant, entity, field);
    var rows := s.fieldPolicies;
    assert ReadPolicies(s, field) == Keep(rows, p) by { KeepSame(rows, row => IsReadOf(row, field), p); }
    AllowedByKept(codec, rows, p, ctx, Some(JObj(record)));
    NoneKept(rows, p);
    forall row ensures row in rows && p(row) <==> row in table && q(row) {
      KeepHas(loaded, IsField, row);
      LoadedRows(table, tenant, entity, loaded, row);
    }
    SameRowsAllowed(codec, rows, table, ctx, Some(JObj(record)), p, q);
    SameRowsAllowed(codec, table, table, ctx, Some(JObj(record)), q, row => AboutReading(row, tenant, entity, field));
  }

  /** A transition asks the rows for transitions in general and those for this action together. */
  lemma TransitionExactly(
    codec: Codec, table: seq<PolicyRow>, tenant: string, entity: string, loaded: seq<PolicyRow>, s: PermissionSnapshot,
    ctx: Context, action: string)
    requires LoadAllPolicies(table, tenant, entity, loaded) && Groups(s, loaded)
    ensures CanTransitionAction(codec, s, ctx, entity, action) <==>
            InScope(ctx, entity, Transition)
            && ("admin" in ctx.roles
                || AllowedBy(codec, table,
                             row => AboutEntity(row, tenant, entity, "transition")
                                    || AboutEntity(row, tenant, entity, "transition:" + action), ctx, None))
  {
    hide Keep, LoadAllPolicies, InScope, ScopePermits, Matches;
    ScopeExactly(ctx, entity, Transition);
    var g, h := Group(s.contextByAction, "transition"), Group(s.contextByAction, TransitionActionPolicy(action));
    forall row
      ensures row in g + h <==>
              row in table && (AboutEntity(row, tenant, entity, "transition")
                               || AboutEntity(row, tenant, entity, "transition:" + action))
    {
      KeepHas(loaded, r => IsContextLevel(r, "transition"), row);
      KeepHas(loaded, r => IsContextLevel(r, TransitionActionPolicy(action)), row);
      LoadedRows(table, tenant, entity, loaded, row);
    }
  }

  /** The tenant of a request is its tenant id, which must be there and be a UUID. */
  lemma TenantExactly(codec: Codec, ctx: Context, tenant: string)
    ensures ScopedTenant(codec, ctx) == Ok(tenant) <==> ctx.tenantId != "" && codec.uuid(ctx.tenantId) == Some(tenant)
    ensures ScopedTenant(codec, ctx) == Err(MissingTenant) <==> ctx.tenantId == ""
  {
  }

  /** An audit diff is hidden altogether if and only if the caller is no admin and the record rows for reading depend on
      the record. */
  lemma HiddenExactly(
    codec: Codec, loaded: seq<PolicyRow>, s: PermissionSnapshot, ctx: Context, declared: seq<string>,
    existing: Option<Record>)
    requires Groups(s, loaded)
    ensures VisibleIn(codec, s, ctx, declared, existing).Nothing? <==>
            "admin" !in ctx.roles && Dependent(codec, RecordRows(loaded, "read"), ctx)
  {
    hide Dependent, Readable, Probe, RecordRows;
  }
}
