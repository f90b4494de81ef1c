/** The per-request policy snapshot, the store-backed service it must agree with, and the visibility of
    audit diffs. */
module Snapshot {
  import opened Prelude
  import opened Json
  import opened Permission

  function Keep<T>(s: seq<T>, p: T -> bool): seq<T> {
    if |s| == 0 then []
    else Keep(s[..|s| - 1], p) + (if p(s[|s| - 1]) then [s[|s| - 1]] else [])
  }

  lemma KeepStep<T>(s: seq<T>, i: nat, p: T -> bool)
    requires i < |s|
    ensures Keep(s[..i + 1], p) == Keep(s[..i], p) + (if p(s[i]) then [s[i]] else [])
  {
    assert s[..i + 1][..i] == s[..i];
  }

  lemma {:induction false} KeepHas<T>(s: seq<T>, p: T -> bool, x: T)
    ensures x in Keep(s, p) <==> x in s && p(x)
    decreases |s|
  {
    if |s| > 0 {
      KeepHas(s[..|s| - 1], p, x);
      assert s == s[..|s| - 1] + [s[|s| - 1]];
    }
  }

  // ---------------------------------------------------------------- the snapshot

  datatype PermissionSnapshot = PermissionSnapshot(
    fieldPolicies: seq<PolicyRow>,
    recordByAction: map<string, seq<PolicyRow>>,
    contextByAction: map<string, seq<PolicyRow>>)

  function Group(m: map<string, seq<PolicyRow>>, key: string): seq<PolicyRow> {
    if key in m then m[key] else []
  }

  predicate BelongsTo(row: PolicyRow, tenant: string, entity: string) { row.tenant == tenant && row.entity == entity }

  predicate IsField(row: PolicyRow) { row.field != "" }

  predicate IsRecordLevel(row: PolicyRow, action: string) {
    row.field == "" && row.subject == "record" && row.action == action
  }

  predicate IsContextLevel(row: PolicyRow, action: string) {
    row.field == "" && row.subject == "context" && row.action == action
  }

  function RecordRows(rows: seq<PolicyRow>, action: string): seq<PolicyRow> {
    Keep(rows, row => IsRecordLevel(row, action))
  }

  function ContextRows(rows: seq<PolicyRow>, action: string): seq<PolicyRow> {
    Keep(rows, row => IsContextLevel(row, action))
  }

  /** The snapshot sorts the rows into groups, keeping each group in row order and losing nothing. */
  ghost predicate Groups(s: PermissionSnapshot, rows: seq<PolicyRow>) {
    && s.fieldPolicies == Keep(rows, IsField)
    && (forall a :: Group(s.recordByAction, a) == RecordRows(rows, a))
    && (forall a :: Group(s.contextByAction, a) == ContextRows(rows, a))
  }

  method PermissionSnapshotFromRows(rows: seq<PolicyRow>) returns (s: PermissionSnapshot)
    ensures Groups(s, rows)
  {
    var fields: seq<PolicyRow> := [];
    var records: map<string, seq<PolicyRow>> := map[];
    var contexts: map<string, seq<PolicyRow>> := map[];
    var i := 0;
    while i < |rows|
      invariant 0 <= i <= |rows|
      invariant Groups(PermissionSnapshot(fields, records, contexts), rows[..i])
    {
      var row := rows[i];
      KeepStep(rows, i, IsField);
      forall a ensures RecordRows(rows[..i + 1], a)
        == RecordRows(rows[..i], a) + (if IsRecordLevel(row, a) then [row] else [])
                       && ContextRows(rows[..i + 1], a)
                          == ContextRows(rows[..i], a) + (if IsContextLevel(row, a) then [row] else []) {
        KeepStep(rows, i, r => IsRecordLevel(r, a));
        KeepStep(rows, i, r => IsContextLevel(r, a));
      }
      if row.field != "" { fields := fields + [row]; }
      if row.field == "" && row.subject == "record" {
        records := records[row.action := Group(records, row.action) + [row]];
      }
      if row.field == "" && row.subject == "context" {
        contexts := contexts[row.action := Group(contexts, row.action) + [row]];
      }
      i := i + 1;
    }
    assert rows[..|rows|] == rows;
    return PermissionSnapshot(fields, records, contexts);
  }

  // ---------------------------------------------------------------- entity-level checks

  datatype EntityAction = Read | Create | Update | Delete | Transition

  function ActionName(a: EntityAction): string {
    match a
    case Read => "read"
    case Create => "create"
    case Update => "update"
    case Delete => "delete"
    case Transition => "transition"
  }

  function ScopeVerb(a: EntityAction): string {
    match a
    case Read => "read"
    case Create => "write"
    case Update => "write"
    case Delete => "delete"
    case Transition => "transition"
  }

  function TransitionActionPolicy(action: string): string { "transition:" + action }

  function ScopeToken(j: Json): Option<string> { AsText(j) }

  /** The granted scope, when the request carries one: an array of strings under `oauthScope`. */
  function OAuthScope(ctx: Context): Option<seq<string>> {
    if "oauthScope" !in ctx.attributes then None
    else match AsArray(ctx.attributes["oauthScope"])
      case None => None
      case Some(items) =>
        if exists i :: 0 <= i < |items| && ScopeToken(items[i]).None? then None
        else Some(seq(|items|, i requires 0 <= i < |items| =>
          match ScopeToken(items[i]) { case Some(t) => t case None => "" }))
  }

  /** `verb:*` or `verb:entity`. */
  predicate TokenCovers(token: string, verb: string, entity: string) {
    token == verb + ":*" || token == verb + ":" + entity
  }

  predicate ScopePermits(ctx: Context, entity: string, action: EntityAction) {
    match OAuthScope(ctx)
    case None => true
    case Some(tokens) => exists i :: 0 <= i < |tokens| && TokenCovers(tokens[i], ScopeVerb(action), entity)
  }

  predicate ContextVerdict(codec: Codec, rows: seq<PolicyRow>, ctx: Context) {
    VerdictOf(codec, rows, ctx, None) == AllowVerdict
  }

  /** The snapshot's answer to "may this caller take this action on this entity at all". */
  predicate CanPerformEntityAction(
    codec: Codec, s: PermissionSnapshot, ctx: Context, entity: string, action: EntityAction) {
    ScopePermits(ctx, entity, action)
    && (ctx.IsAdmin() || ContextVerdict(codec, Group(s.contextByAction, ActionName(action)), ctx))
  }

  predicate CanTransitionAction(codec: Codec, s: PermissionSnapshot, ctx: Context, entity: string, action: string) {
    ScopePermits(ctx, entity, Transition)
    && (ctx.IsAdmin()
        || ContextVerdict(codec, Group(s.contextByAction, "transition")
                                 + Group(s.contextByAction, TransitionActionPolicy(action)), ctx))
  }

  datatype ServiceError = MissingTenant | BadTenant

  function ScopedTenant(codec: Codec, ctx: Context): Result<string, ServiceError> {
    if ctx.tenantId == "" then Err(MissingTenant)
    else match codec.uuid(ctx.tenantId) { case Some(t) => Ok(t) case None => Err(BadTenant) }
  }

  /** `found` is a result of the store query for this tenant, entity and action: the database fixes no order. */
  ghost predicate FindContextPolicies(
    table: seq<PolicyRow>, tenant: string, entity: string, action: string, found: seq<PolicyRow>) {
    multiset(found) == multiset(Keep(table, row =>
      BelongsTo(row, tenant, entity) && IsContextLevel(row, action)))
  }

  ghost predicate LoadAllPolicies(table: seq<PolicyRow>, tenant: string, entity: string, loaded: seq<PolicyRow>) {
    multiset(loaded) == multiset(Keep(table, row => BelongsTo(row, tenant, entity)))
  }

  /** checkAction on what the store returned. */
  function CheckAction(
    codec: Codec, ctx: Context, entity: string, action: EntityAction,
    found: seq<PolicyRow>): Result<bool, ServiceError> {
    if !ScopePermits(ctx, entity, action) then Ok(false)
    else if ctx.IsAdmin() then Ok(true)
    else match ScopedTenant(codec, ctx)
      case Err(m) => Err(m)
      case Ok(_) => Ok(VerdictOf(codec, found, ctx, None) == AllowVerdict)
  }

  function CheckTransition(
    codec: Codec, ctx: Context, entity: string, generic: seq<PolicyRow>,
    specific: seq<PolicyRow>): Result<bool, ServiceError> {
    if !ScopePermits(ctx, entity, Transition) then Ok(false)
    else if ctx.IsAdmin() then Ok(true)
    else match ScopedTenant(codec, ctx)
      case Err(m) => Err(m)
      case Ok(_) => Ok(ContextVerdict(codec, generic + specific, ctx))
  }

  lemma SameContextRows(
    table: seq<PolicyRow>, tenant: string, entity: string, action: string, loaded: seq<PolicyRow>,
    found: seq<PolicyRow>)
    requires LoadAllPolicies(table, tenant, entity, loaded)
    requires FindContextPolicies(table, tenant, entity, action, found)
    ensures forall row :: row in ContextRows(loaded, action) <==> row in found
  {
    hide Keep;
    forall row ensures row in ContextRows(loaded, action) <==> row in found {
      KeepHas(loaded, r => IsContextLevel(r, action), row);
      KeepHas(table, r => BelongsTo(r, tenant, entity), row);
      KeepHas(table, r => BelongsTo(r, tenant, entity) && IsContextLevel(r, action), row);
      assert row in found <==> row in multiset(found);
      assert row in loaded <==> row in multiset(loaded);
    }
  }

  /** The capability answer from the snapshot is the answer the write path gets from the store. */
  lemma EntityCheckAgrees(
    codec: Codec, ctx: Context, entity: string, action: EntityAction, table: seq<PolicyRow>, tenant: string,
    loaded: seq<PolicyRow>, s: PermissionSnapshot, found: seq<PolicyRow>)
    requires ScopedTenant(codec, ctx) == Ok(tenant)
    requires LoadAllPolicies(table, tenant, entity, loaded) && Groups(s, loaded)
    requires FindContextPolicies(table, tenant, entity, ActionName(action), found)
    ensures CheckAction(codec, ctx, entity, action, found)
            == Ok(CanPerformEntityAction(codec, s, ctx, entity, action))
  {
    SameContextRows(table, tenant, entity, ActionName(action), loaded, found);
    VerdictOfSameRows(codec, ContextRows(loaded, ActionName(action)), found, ctx, None);
  }

  lemma TransitionCheckAgrees(
    codec: Codec, ctx: Context, entity: string, action: string, table: seq<PolicyRow>, tenant: string,
    loaded: seq<PolicyRow>, s: PermissionSnapshot, generic: seq<PolicyRow>, specific: seq<PolicyRow>)
    requires ScopedTenant(codec, ctx) == Ok(tenant)
    requires LoadAllPolicies(table, tenant, entity, loaded) && Groups(s, loaded)
    requires FindContextPolicies(table, tenant, entity, "transition", generic)
    requires FindContextPolicies(table, tenant, entity, TransitionActionPolicy(action), specific)
    ensures CheckTransition(codec, ctx, entity, generic, specific)
            == Ok(CanTransitionAction(codec, s, ctx, entity, action))
  {
    hide VerdictOf, Keep, ContextRows, LoadAllPolicies, FindContextPolicies;
    SameContextRows(table, tenant, entity, "transition", loaded, generic);
    SameContextRows(table, tenant, entity, TransitionActionPolicy(action), loaded, specific);
    VerdictOfSameRows(codec, ContextRows(loaded, "transition") + ContextRows(loaded, TransitionActionPolicy(action)),
                        generic + specific, ctx, None);
  }

  /** Without a tenant the service refuses with an error where the snapshot would decide. */
  lemma NoTenantIsAnError(codec: Codec, ctx: Context, entity: string, action: EntityAction, found: seq<PolicyRow>)
    ensures CheckAction(codec, ctx, entity, action, found).Err?
            <==> ScopePermits(ctx, entity, action) && !ctx.IsAdmin() && ScopedTenant(codec, ctx).Err?
  {
  }

  // ---------------------------------------------------------------- record-level checks

  /** CanPerformRecordCondition: without a record policy for the action every record is open. */
  predicate CanPerformRecordCondition(
    codec: Codec, s: PermissionSnapshot, ctx: Context, record: Record, action: EntityAction) {
    var rows := Group(s.recordByAction, ActionName(action));
    ctx.IsAdmin() || rows == [] || VerdictOf(codec, rows, ctx, Some(JObj(record))) == AllowVerdict
  }

  // ---------------------------------------------------------------- field-level reads

  predicate IsReadOf(row: PolicyRow, field: string) { row.action == "read" && row.field == field && field != "" }

  function ReadsOf(rows: seq<PolicyRow>, field: string): seq<PolicyRow> { Keep(rows, row => IsReadOf(row, field)) }

  function ReadPolicies(s: PermissionSnapshot, field: string): seq<PolicyRow> { ReadsOf(s.fieldPolicies, field) }

  /** Read policies sorted by field, as both readers below build them. */
  ghost predicate ByField(m: map<string, seq<PolicyRow>>, s: PermissionSnapshot) {
    (forall f :: Group(m, f) == ReadPolicies(s, f)) && (forall f :: f in m ==> m[f] != [])
  }

  method ReadPoliciesByField(s: PermissionSnapshot) returns (m: map<string, seq<PolicyRow>>)
    ensures ByField(m, s)
  {
    var rows := s.fieldPolicies;
    m := map[];
    var i := 0;
    while i < |rows|
      invariant 0 <= i <= |rows|
      invariant forall f :: Group(m, f) == ReadsOf(rows[..i], f)
      invariant forall f :: f in m ==> m[f] != []
    {
      var row := rows[i];
      forall f ensures ReadsOf(rows[..i + 1], f) == ReadsOf(rows[..i], f) + (if IsReadOf(row, f) then [row] else []) {
        KeepStep(rows, i, r => IsReadOf(r, f));
      }
      if row.action == "read" && row.field != "" {
        m := m[row.field := Group(m, row.field) + [row]];
      }
      i := i + 1;
    }
    assert rows[..|rows|] == rows;
  }

  /** Allow by default: a field without read policies is readable by anyone who reads the record. */
  predicate Readable(codec: Codec, s: PermissionSnapshot, ctx: Context, record: Record, field: string) {
    ctx.IsAdmin() || ReadPolicies(s, field) == []
    || VerdictOf(codec, ReadPolicies(s, field), ctx, Some(JObj(record))) == AllowVerdict
  }

  function Restrict(record: Record, names: set<string>): Record { map k | k in record && k in names :: record[k] }

  method FilterReadableFields(codec: Codec, s: PermissionSnapshot, ctx: Context, record: Record) returns (out: Record)
    ensures out == Restrict(record, set k | k in record && Readable(codec, s, ctx, record, k))
    ensures forall k :: k in out <==> k in record && Readable(codec, s, ctx, record, k)
    ensures forall k :: k in out ==> out[k] == record[k]
  {
    if ctx.IsAdmin() { return record; }
    var byField := ReadPoliciesByField(s);
    out := map[];
    var left := record.Keys;
    while left != {}
      invariant left <= record.Keys
      invariant out == map k | k in record && k !in left && Readable(codec, s, ctx, record, k) :: record[k]
      decreases |left|
    {
      var key :| key in left;
      var readable := key !in byField;
      if key in byField {
        var v := EvaluatePolicies(codec, byField[key], ctx, Some(JObj(record)));
        readable := v == AllowVerdict;
      }
      assert Group(byField, key) == ReadPolicies(s, key);
      if readable { out := out[key := record[key]]; }
      left := left - {key};
    }
  }

  predicate AccessIsStateDependent(codec: Codec, s: PermissionSnapshot, ctx: Context, action: EntityAction) {
    !ctx.IsAdmin() && Dependent(codec, Group(s.recordByAction, ActionName(action)), ctx)
  }

  method RecordStateDependentReadFields(codec: Codec, s: PermissionSnapshot, ctx: Context) returns (out: set<string>)
    ensures forall f :: f in out <==> !ctx.IsAdmin() && Dependent(codec, ReadPolicies(s, f), ctx)
  {
    out := {};
    if ctx.IsAdmin() { return; }
    var byField := ReadPoliciesByField(s);
    var left := byField.Keys;
    while left != {}
      invariant left <= byField.Keys
      invariant forall f :: f in out <==> f in byField && f !in left && Dependent(codec, ReadPolicies(s, f), ctx)
      decreases |left|
    {
      var field :| field in left;
      assert Group(byField, field) == ReadPolicies(s, field);
      var dependent := VerdictIsRecordDependent(codec, byField[field], ctx);
      if dependent { out := out + {field}; }
      left := left - {field};
    }
    forall f | f !in byField ensures !Dependent(codec, ReadPolicies(s, f), ctx) {
      assert Group(byField, f) == [];
    }
  }

  // ---------------------------------------------------------------- audit diffs

  datatype Visibility = Nothing | Fields(names: set<string>)

  /** The probe record: the current data, with every declared field present. */
  function Probe(declared: seq<string>, existing: Option<Record>): Record {
    var data := if existing.Some? then existing.value else map[];
    map k | k in data.Keys + (set n | n in declared) :: if k in data then data[k] else JNull
  }

  /** Which fields of an audit diff the caller sees while the record is in the state `existing`. */
  function VisibleIn(
    codec: Codec, s: PermissionSnapshot, ctx: Context, declared: seq<string>, existing: Option<Record>): Visibility {
    if AccessIsStateDependent(codec, s, ctx, Read) then Nothing
    else
      var probe := Probe(declared, existing);
      Fields(set k | k in probe && Readable(codec, s, ctx, probe, k)
                     && (ctx.IsAdmin() || !Dependent(codec, ReadPolicies(s, k), ctx)))
  }

  method BuildProbe(declared: seq<string>, existing: Option<Record>) returns (probe: Record)
    ensures probe == Probe(declared, existing)
    ensures forall k :: k in probe <==> k in declared || (existing.Some? && k in existing.value)
    ensures forall k :: k in probe ==>
              probe[k] == if existing.Some? && k in existing.value then existing.value[k] else JNull
  {
    probe := if existing.Some? then existing.value else map[];
    ghost var data := probe;
    var i := 0;
    while i < |declared|
      invariant 0 <= i <= |declared|
      invariant probe == map k | k in data.Keys + (set n | n in declared[..i]) :: if k in data then data[k] else JNull
    {
      assert declared[..i + 1] == declared[..i] + [declared[i]];
      if declared[i] !in probe { probe := probe[declared[i] := JNull]; }
      i := i + 1;
    }
    assert declared[..|declared|] == declared;
  }

  method NamesOutside(readable: Record, stateDependent: set<string>) returns (names: set<string>)
    ensures names == readable.Keys - stateDependent
  {
    names := {};
    var left := readable.Keys;
    while left != {}
      invariant left <= readable.Keys
      invariant names == (readable.Keys - left) - stateDependent
      decreases |left|
    {
      var field :| field in left;
      if field !in stateDependent { names := names + {field}; }
      left := left - {field};
    }
  }

  method AuditDiffVisibility(
    codec: Codec, s: PermissionSnapshot, ctx: Context, declared: seq<string>, existing: Option<Record>)
    returns (v: Visibility)
    ensures v == VisibleIn(codec, s, ctx, declared, existing)
  {
    hide Dependent, Readable, Probe;
    var probe := BuildProbe(declared, existing);
    if !ctx.IsAdmin() {
      var dependent := VerdictIsRecordDependent(codec, Group(s.recordByAction, "read"), ctx);
      if dependent { return Nothing; }
    }
    var stateDependent := RecordStateDependentReadFields(codec, s, ctx);
    var readable := FilterReadableFields(codec, s, ctx, probe);
    var names := NamesOutside(readable, stateDependent);
    return Fields(names);
  }

  method MaskDiff(diff: Record, v: Visibility) returns (masked: Record)
    ensures masked == if v.Nothing? then map[] else Restrict(diff, v.names)
    ensures forall k :: k in masked <==> k in diff && v.Fields? && k in v.names
    ensures forall k :: k in masked ==> masked[k] == diff[k]
  {
    if v.Nothing? { return map[]; }
    masked := diff;
    var left := diff.Keys;
    while left != {}
      invariant left <= diff.Keys
      invariant masked == map k | k in diff && (k in left || k in v.names) :: diff[k]
      decreases |left|
    {
      var field :| field in left;
      if field !in v.names { masked := masked - {field}; }
      left := left - {field};
    }
  }

  /** Which declared fields an audit diff shows does not depend on the record's current state: the caller
      learns nothing about it, and neither a later change nor a deletion uncovers or hides one. */
  lemma AuditIgnoresCurrentState(
    codec: Codec, s: PermissionSnapshot, ctx: Context, declared: seq<string>, e1: Option<Record>, e2: Option<Record>)
    ensures var v1, v2 := VisibleIn(codec, s, ctx, declared, e1), VisibleIn(codec, s, ctx, declared, e2);
            v1.Nothing? == v2.Nothing?
            && (v1.Fields? ==> forall f :: f in declared ==> (f in v1.names <==> f in v2.names))
  {
    var p1, p2 := Probe(declared, e1), Probe(declared, e2);
    forall f | f in declared && !Dependent(codec, ReadPolicies(s, f), ctx)
      ensures Readable(codec, s, ctx, p1, f) == Readable(codec, s, ctx, p2, f)
    {
      IndependentVerdict(codec, ReadPolicies(s, f), ctx, JObj(p1), JObj(p2));
    }
  }

  /** A declared field is shown exactly when its verdict cannot depend on the record and is Allow on any one
      record at all, for instance on an empty one. */
  lemma ShownFields(
    codec: Codec, s: PermissionSnapshot, ctx: Context, declared: seq<string>, existing: Option<Record>, f: string)
    requires f in declared
    ensures var v := VisibleIn(codec, s, ctx, declared, existing);
            v.Fields? && f in v.names <==>
            !AccessIsStateDependent(codec, s, ctx, Read)
            && (ctx.IsAdmin() || ReadPolicies(s, f) == []
                || (!Dependent(codec, ReadPolicies(s, f), ctx)
                    && VerdictOf(codec, ReadPolicies(s, f), ctx, Some(JObj(map[]))) == AllowVerdict))
  {
    if !Dependent(codec, ReadPolicies(s, f), ctx) {
      IndependentVerdict(codec, ReadPolicies(s, f), ctx, JObj(Probe(declared, existing)), JObj(map[]));
    }
  }
}
