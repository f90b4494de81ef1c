/** Which indexes a compiled schema has, declaration by declaration: their names, keys, uniqueness, the rows they cover,
    and whether the tenant leads. */
module CompiledIndexes {
  import opened Prelude
  import opened Metadata
  import opened PhysicalSchema
  import C = SchemaCompiler
  import A = ColumnAgreement

  // ---------------------------------------------------------------- what the declarations ask for

  /** The type a text in `data` is cast to; dates stay texts. */
  function KeyType(k: Kind): Option<string> {
    match k
    case KindDate => None
    case KindDatetime => None
    case KindString => Some("text")
    case KindEnum => Some("text")
    case KindNumber => Some("double precision")
    case KindMoney => Some("numeric(18,4)")
    case KindBoolean => Some("boolean")
    case KindReference => Some("uuid")
    case KindId => Some("uuid")
    case KindJson => Some("jsonb")
  }

  /** The key of a field: its column, or the text in `data`, cast to the field's type. */
  function Key(f: Field): string {
    if A.HasOwnColumn(f) then "\"" + f.name + "\""
    else match KeyType(f.kind)
      case Some(ty) => "((data ->> '" + f.name + "')::" + ty + ")"
      case None => "(data ->> '" + f.name + "')"
  }

  const TENANT := "\"tenant_id\", "

  predicate PerTenant(scope: Option<Scope>) { scope == None || scope == Some(ScopeTenant) }

  predicate Mirrored(f: Field) { f.name == "code" || f.name == "status" }

  /** A field with a column is indexed when it is unique, indexed, sortable or a reference; one in `data` when it is
      unique, indexed or sortable and not declared native. A searchable field has its own index only if it is unique. */
  predicate Indexed(f: Field) {
    && !Mirrored(f) && (f.searchable ==> f.unique)
    && if A.HasOwnColumn(f) then f.unique || f.indexed || f.sortable || (f.kind == KindReference && f.refEntity.Some?)
       else f.storage == None && (f.unique || f.indexed || f.sortable)
  }

  function OwnName(entity: Entity, f: Field): string {
    (if f.unique then "uniq_" else "idx_") + C.TableNameFor(entity.name) + "_" + f.name
  }

  /** Unique over the live rows, of each tenant or of all; otherwise over all rows, the tenant first except for a
      reference. */
  function OwnIndex(f: Field): IndexSpec {
    if f.unique then
      IndexSpec((if PerTenant(f.uniqueScope) then TENANT else "") + Key(f), true, "", true, "deleted = false")
    else
      IndexSpec((if f.kind == KindReference && f.refEntity.Some? then "" else TENANT) + Key(f), false, "", true, "")
  }

  function SearchName(entity: Entity, f: Field): string {
    (if f.searchMode == Some("fts") then "gin_" else "trgm_") + C.TableNameFor(entity.name) + "_" + f.name
  }

  function SearchIndex(f: Field): IndexSpec {
    IndexSpec(if f.searchMode == Some("fts") then "to_tsvector('simple', (data ->> '" + f.name + "'))"
              else "(data ->> '" + f.name + "') gin_trgm_ops", false, "gin", true, "")
  }

  /** What a schema says about one field's indexes. */
  ghost predicate Holds(entity: Entity, f: Field, s: Schema) {
    && (OwnName(entity, f) in s.indexes <==> Indexed(f))
    && (Indexed(f) ==> s.indexes[OwnName(entity, f)] == OwnIndex(f))
    && (SearchName(entity, f) in s.indexes <==> f.searchable && !Mirrored(f))
    && (f.searchable && !Mirrored(f) ==> s.indexes[SearchName(entity, f)] == SearchIndex(f))
  }

  // ---------------------------------------------------------------- against the compiler

  lemma Paste(a: string, b: string, n: string, c: string, d: string)
    ensures a + (b + n + c) + d == (a + b) + n + (c + d)
  {
  }

  lemma KeyIsCompiled(f: Field)
    ensures C.FieldIndexExpression(f) == Key(f)
  {
    if !A.HasOwnColumn(f) && KeyType(f.kind).Some? {
      var ty := KeyType(f.kind).value;
      TypeIsCompiled(f.kind);
      Paste("(", "(data ->> '", f.name, "')", "::");
      assert "(" + "(data ->> '" == "((data ->> '" && "')" + "::" == "')::";
    }
  }

  lemma TypeIsCompiled(k: Kind)
    ensures KeyType(k).Some? ==> C.SqlType(k) == KeyType(k).value
    ensures KeyType(k).None? <==> k == KindDate || k == KindDatetime
  {
  }

  lemma SearchIsCompiled(f: Field)
    requires f.searchable
    ensures C.SearchIndex(f) == SearchIndex(f)
  {
    if f.searchMode == Some("fts") {
      Paste("to_tsvector('simple', ", "(data ->> '", f.name, "')", ")");
      assert "to_tsvector('simple', " + "(data ->> '" == "to_tsvector('simple', (data ->> '" && "')" + ")" == "'))";
    } else {
      Paste("", "(data ->> '", f.name, "')", " gin_trgm_ops");
      assert "" + C.DataText(f.name) == C.DataText(f.name);
      assert "" + "(data ->> '" == "(data ->> '" && "')" + " gin_trgm_ops" == "') gin_trgm_ops";
    }
  }

  lemma LeadIsCompiled(expr: string, lead: bool)
    ensures C.WithTenantPrefix(expr, lead) == (if lead then TENANT else "") + expr
  {
    assert "" + expr == expr;
  }

  lemma ScopeIsCompiled(scope: Option<Scope>)
    ensures C.TenantScoped(scope) <==> PerTenant(scope)
  {
    match scope { case None => case Some(ScopeTenant) => case Some(ScopeGlobal) => }
  }

  lemma IndexIsCompiled(f: Field)
    ensures C.FieldIndex(Key(f), if f.unique then C.TenantScoped(f.uniqueScope) else !C.IsForeignKey(f), f.unique)
            == OwnIndex(f)
  {
    hide Key, C.WithTenantPrefix;
    ScopeIsCompiled(f.uniqueScope);
    LeadIsCompiled(Key(f), if f.unique then C.TenantScoped(f.uniqueScope) else !C.IsForeignKey(f));
  }

  lemma OwnNameIsCompiled(entity: Entity, f: Field)
    ensures C.IndexName(entity.name, f.name, C.IndexKind(f)) == OwnName(entity, f)
    ensures f.searchable ==>
              C.IndexName(entity.name, f.name, if IsFts(f) then "gin" else "trgm") == SearchName(entity, f)
  {
    hide C.TableNameFor;
    assert "uniq" + "_" == "uniq_" && "idx" + "_" == "idx_" && "gin" + "_" == "gin_" && "trgm" + "_" == "trgm_";
  }

  lemma NamesDiffer(k: string, l: string, t: string, m: string, n: string)
    requires k in {"uniq_", "idx_", "gin_", "trgm_"} && l in {"uniq_", "idx_", "gin_", "trgm_"}
    requires k != l || m != n
    ensures k + t + "_" + m != l + t + "_" + n
  {
    var a, b := k + t + "_" + m, l + t + "_" + n;
    if k == l {
      var p := k + t + "_";
      assert a[|p|..] == m && b[|p|..] == n;
    } else {
      assert a[0] == k[0] && b[0] == l[0];
    }
  }

  lemma FieldNamesDiffer(entity: Entity, f: Field, g: Field)
    requires f.name != g.name
    ensures OwnName(entity, f) != OwnName(entity, g) && OwnName(entity, f) != SearchName(entity, g)
    ensures SearchName(entity, f) != OwnName(entity, g) && SearchName(entity, f) != SearchName(entity, g)
  {
    hide C.TableNameFor;
    var t := C.TableNameFor(entity.name);
    var p, q := if f.unique then "uniq_" else "idx_", if g.unique then "uniq_" else "idx_";
    var r := if f.searchMode == Some("fts") then "gin_" else "trgm_";
    var u := if g.searchMode == Some("fts") then "gin_" else "trgm_";
    NamesDiffer(p, q, t, f.name, g.name);
    NamesDiffer(p, u, t, f.name, g.name);
    NamesDiffer(r, q, t, f.name, g.name);
    NamesDiffer(r, u, t, f.name, g.name);
  }

  lemma OwnAndSearchDiffer(entity: Entity, f: Field)
    ensures OwnName(entity, f) != SearchName(entity, f)
  {
    hide C.TableNameFor;
    NamesDiffer(if f.unique then "uniq_" else "idx_", if f.searchMode == Some("fts") then "gin_" else "trgm_",
                C.TableNameFor(entity.name), f.name, f.name);
  }

  /** One field changes nothing but its own two names. */
  lemma FieldTouches(entity: Entity, schemaName: string, f: Field, s: Schema, n: string)
    requires C.WithField(entity, schemaName, f, s).Ok? && n != OwnName(entity, f) && n != SearchName(entity, f)
    ensures var t := C.WithField(entity, schemaName, f, s).value;
            (n in t.indexes <==> n in s.indexes) && (n in s.indexes ==> t.indexes[n] == s.indexes[n])
  {
    OwnNameIsCompiled(entity, f);
    hide C.TableNameFor, C.IndexName, C.FieldIndexExpression, C.FrameworkColumns, C.WithTenantPrefix;
    hide OwnName, SearchName;
  }

  lemma SearchHolds(entity: Entity, f: Field, s: Schema)
    requires SearchName(entity, f) !in s.indexes
    ensures C.WithSearch(entity, f, s).indexes
            == if f.searchable then s.indexes[SearchName(entity, f) := SearchIndex(f)] else s.indexes
  {
    OwnNameIsCompiled(entity, f);
    if f.searchable { SearchIsCompiled(f); }
    hide C.TableNameFor, C.IndexName, SearchName, C.SearchIndex, SearchIndex;
  }

  lemma ColumnHolds(entity: Entity, schemaName: string, f: Field, s: Schema)
    requires HasRealColumn(f)
    ensures C.WithColumn(entity, schemaName, f, s).indexes
            == if f.unique || f.indexed || f.sortable || C.IsForeignKey(f)
               then s.indexes[OwnName(entity, f) := OwnIndex(f)] else s.indexes
  {
    OwnNameIsCompiled(entity, f);
    KeyIsCompiled(f);
    IndexIsCompiled(f);
    hide C.TableNameFor, C.IndexName, OwnName, Key, C.FieldIndex, OwnIndex, C.SqlType;
  }

  lemma ExpressionHolds(entity: Entity, f: Field, s: Schema)
    requires !HasRealColumn(f)
    ensures C.WithExpressionIndex(entity, f, s).indexes == s.indexes[OwnName(entity, f) := OwnIndex(f)]
  {
    OwnNameIsCompiled(entity, f);
    KeyIsCompiled(f);
    IndexIsCompiled(f);
    hide C.TableNameFor, C.IndexName, C.FieldIndexExpression, OwnName, Key, C.FieldIndex, OwnIndex;
  }

  lemma OwnFieldHolds(entity: Entity, schemaName: string, f: Field, s: Schema)
    requires C.WithField(entity, schemaName, f, s).Ok?
    requires OwnName(entity, f) !in s.indexes && SearchName(entity, f) !in s.indexes
    ensures Holds(entity, f, C.WithField(entity, schemaName, f, s).value)
  {
    hide C.FrameworkColumns, OwnName, SearchName, SearchIndex, OwnIndex, C.WithSearch, C.WithColumn,
      C.WithExpressionIndex;
    OwnAndSearchDiffer(entity, f);
    SearchHolds(entity, f, s);
    var searched := C.WithSearch(entity, f, s);
    if HasRealColumn(f) { ColumnHolds(entity, schemaName, f, searched); } else { ExpressionHolds(entity, f, searched); }
  }

  lemma {:induction false} OtherFieldsLeave(
    entity: Entity, schemaName: string, f: Field, fields: seq<Field>, s: Schema)
    requires C.WithFields(entity, schemaName, fields, s).Ok? && forall g :: g in fields ==> f.name != g.name
    ensures Holds(entity, f, C.WithFields(entity, schemaName, fields, s).value) <==> Holds(entity, f, s)
    decreases |fields|
  {
    hide C.WithField, OwnName, SearchName, Indexed, OwnIndex, SearchIndex;
    if |fields| > 0 {
      FieldNamesDiffer(entity, f, fields[0]);
      FieldTouches(entity, schemaName, fields[0], s, OwnName(entity, f));
      FieldTouches(entity, schemaName, fields[0], s, SearchName(entity, f));
      OtherFieldsLeave(entity, schemaName, f, fields[1..], C.WithField(entity, schemaName, fields[0], s).value);
    }
  }

  lemma {:induction false} FieldIsHeld(entity: Entity, schemaName: string, f: Field, fields: seq<Field>, s: Schema)
    requires C.WithFields(entity, schemaName, fields, s).Ok? && A.DistinctNames(fields) && f in fields
    requires OwnName(entity, f) !in s.indexes && SearchName(entity, f) !in s.indexes
    ensures Holds(entity, f, C.WithFields(entity, schemaName, fields, s).value)
    decreases |fields|
  {
    hide C.WithField, OwnName, SearchName, Holds;
    var t := C.WithField(entity, schemaName, fields[0], s).value;
    if f == fields[0] {
      OwnFieldHolds(entity, schemaName, f, s);
      OtherFieldsLeave(entity, schemaName, f, fields[1..], t);
    } else {
      var i :| 0 <= i < |fields| && fields[i] == f;
      assert fields[1..][i - 1] == f;
      FieldNamesDiffer(entity, f, fields[0]);
      FieldTouches(entity, schemaName, fields[0], s, OwnName(entity, f));
      FieldTouches(entity, schemaName, fields[0], s, SearchName(entity, f));
      FieldIsHeld(entity, schemaName, f, fields[1..], t);
    }
  }

  lemma {:induction false} ConstraintsTouch(entity: Entity, cs: seq<UniqueConstraint>, s: Schema, n: string)
    requires forall c :: c in cs ==> C.CompositeUniqueIndexName(entity.name, c.fields) != n
    ensures var t := C.WithConstraints(entity, cs, s);
            (n in t.indexes <==> n in s.indexes) && (n in s.indexes ==> t.indexes[n] == s.indexes[n])
    decreases |cs|
  {
    hide C.CompositeUniqueIndexName, C.Expressions, Join;
    if |cs| > 0 { ConstraintsTouch(entity, cs[1..], C.WithConstraint(entity, cs[0], s), n); }
  }

  /** No composite constraint has taken the name. */
  ghost predicate Untaken(entity: Entity, n: string) {
    forall c :: c in entity.uniqueConstraints ==> C.CompositeUniqueIndexName(entity.name, c.fields) != n
  }

  lemma BaseHasTenantIndexOnly(entity: Entity, f: Field)
    requires f.name != "tenant_id"
    ensures OwnName(entity, f) !in C.BaseSchema(entity).indexes
    ensures SearchName(entity, f) !in C.BaseSchema(entity).indexes
  {
    hide C.TableNameFor, C.FrameworkColumns;
    var t := C.TableNameFor(entity.name);
    assert "idx" + "_" == "idx_";
    NamesDiffer(if f.unique then "uniq_" else "idx_", "idx_", t, f.name, "tenant_id");
    NamesDiffer(if f.searchMode == Some("fts") then "gin_" else "trgm_", "idx_", t, f.name, "tenant_id");
  }

  lemma {:induction false} NoneNamedTenant(
    entity: Entity, schemaName: string, fields: seq<Field>, s: Schema, f: Field)
    requires C.WithFields(entity, schemaName, fields, s).Ok? && f in fields
    ensures f.name != "tenant_id"
    decreases |fields|
  {
    hide C.WithSearch, C.WithColumn, C.WithExpressionIndex;
    if f != fields[0] {
      NoneNamedTenant(entity, schemaName, fields[1..], C.WithField(entity, schemaName, fields[0], s).value, f);
    }
  }

  /** In every compiled schema each field has exactly the indexes its declaration asks for. */
  lemma CompiledFieldIndexes(entity: Entity, f: Field)
    requires C.CompileOf(entity).Ok? && A.DistinctNames(entity.fields) && f in entity.fields
    requires Untaken(entity, OwnName(entity, f)) && Untaken(entity, SearchName(entity, f))
    ensures Holds(entity, f, C.CompileOf(entity).value)
  {
    hide C.WithField, C.FrameworkColumns, C.TableNameFor, C.IndexName, OwnName, SearchName, Indexed, OwnIndex,
      SearchIndex, C.BaseSchema, C.WithConstraints;
    var schemaName := C.SchemaPart(entity.table).value;
    NoneNamedTenant(entity, schemaName, entity.fields, C.BaseSchema(entity), f);
    BaseHasTenantIndexOnly(entity, f);
    FieldIsHeld(entity, schemaName, f, entity.fields, C.BaseSchema(entity));
    var s := C.WithFields(entity, schemaName, entity.fields, C.BaseSchema(entity)).value;
    ConstraintsTouch(entity, entity.uniqueConstraints, s, OwnName(entity, f));
    ConstraintsTouch(entity, entity.uniqueConstraints, s, SearchName(entity, f));
  }

  // ---------------------------------------------------------------- composite constraints

  /** Unique over the live rows, of each tenant or of all, with the keys of its fields in their order. */
  function CompositeIndex(entity: Entity, c: UniqueConstraint): IndexSpec {
    IndexSpec((if PerTenant(c.scope) then TENANT else "") + Join(Keys(entity.fields, c.fields), ", "), true, "", true,
              "deleted = false")
  }

  function Keys(fields: seq<Field>, names: seq<string>): seq<string> {
    seq(|names|, i requires 0 <= i < |names| => Key(C.FieldNamed(fields, names[i])))
  }

  lemma KeysAreCompiled(fields: seq<Field>, names: seq<string>)
    ensures C.Expressions(fields, names) == Keys(fields, names)
  {
    hide Key, C.FieldIndexExpression;
    forall i | 0 <= i < |names| ensures C.Expressions(fields, names)[i] == Keys(fields, names)[i] {
      KeyIsCompiled(C.FieldNamed(fields, names[i]));
    }
  }

  lemma OneConstraint(entity: Entity, c: UniqueConstraint, s: Schema)
    ensures var n, t := C.CompositeUniqueIndexName(entity.name, c.fields), C.WithConstraint(entity, c, s);
            t == s.(indexes := s.indexes[n := CompositeIndex(entity, c)])
  {
    KeysAreCompiled(entity.fields, c.fields);
    hide C.CompositeUniqueIndexName, C.Expressions, Keys, Join;
    hide C.WithTenantPrefix;
    ScopeIsCompiled(c.scope);
    LeadIsCompiled(Join(Keys(entity.fields, c.fields), ", "), C.TenantScoped(c.scope));
  }

  lemma {:induction false} ConstraintIsHeld(entity: Entity, cs: seq<UniqueConstraint>, s: Schema, i: nat)
    requires i < |cs|
    requires forall j :: i < j < |cs| ==>
               C.CompositeUniqueIndexName(entity.name, cs[j].fields)
               != C.CompositeUniqueIndexName(entity.name, cs[i].fields)
    ensures var n, t := C.CompositeUniqueIndexName(entity.name, cs[i].fields), C.WithConstraints(entity, cs, s);
            n in t.indexes && t.indexes[n] == CompositeIndex(entity, cs[i])
    decreases |cs|
  {
    hide C.CompositeUniqueIndexName, C.WithConstraint, CompositeIndex;
    OneConstraint(entity, cs[0], s);
    var t := C.WithConstraint(entity, cs[0], s);
    if i == 0 {
      forall c | c in cs[1..]
        ensures C.CompositeUniqueIndexName(entity.name, c.fields)
                != C.CompositeUniqueIndexName(entity.name, cs[0].fields)
      {
        var j :| 0 <= j < |cs[1..]| && cs[1..][j] == c;
        assert cs[j + 1] == c;
      }
      ConstraintsTouch(entity, cs[1..], t, C.CompositeUniqueIndexName(entity.name, cs[0].fields));
    } else {
      assert forall j :: 0 <= j < |cs[1..]| ==> cs[1..][j] == cs[j + 1];
      ConstraintIsHeld(entity, cs[1..], t, i - 1);
    }
  }

  /** And every composite constraint whose name no later one takes has its index. */
  lemma CompiledConstraintIndex(entity: Entity, i: nat)
    requires C.CompileOf(entity).Ok? && i < |entity.uniqueConstraints|
    requires forall j :: i < j < |entity.uniqueConstraints| ==>
               C.CompositeUniqueIndexName(entity.name, entity.uniqueConstraints[j].fields)
               != C.CompositeUniqueIndexName(entity.name, entity.uniqueConstraints[i].fields)
    ensures var c, d := entity.uniqueConstraints[i], C.CompileOf(entity).value;
            var n := C.CompositeUniqueIndexName(entity.name, c.fields);
            n in d.indexes && d.indexes[n] == CompositeIndex(entity, c)
  {
    hide C.WithConstraints, C.WithFields, C.CompositeUniqueIndexName, CompositeIndex, C.BaseSchema;
    var schemaName := C.SchemaPart(entity.table).value;
    var s := C.WithFields(entity, schemaName, entity.fields, C.BaseSchema(entity)).value;
    ConstraintIsHeld(entity, entity.uniqueConstraints, s, i);
  }
}
