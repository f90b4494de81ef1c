/** One rule says which fields have a real column. The query side reads such a field from its column; this is about
    when the reconciler has made that column. */
module ColumnAgreement {
  import opened Prelude
  import opened Metadata
  import opened PhysicalSchema
  import opened Sql
  import C = SchemaCompiler
  import J = JqlCodegen
  import F = ListFilters
  import K = SortKeys
  import U = Utf8

  /** Validate refuses an entity that declares a name twice. */
  ghost predicate DistinctNames(fields: seq<Field>) {
    forall i, j :: 0 <= i < j < |fields| ==> fields[i].name != fields[j].name
  }

  /** References that name an entity, and fields declared to be stored in a column. */
  predicate HasOwnColumn(f: Field) {
    || (f.kind == KindReference && f.refEntity != None)
    || f.storage == Some(StorageColumn)
  }

  lemma OwnColumnIsReal(f: Field)
    ensures HasRealColumn(f) <==> HasOwnColumn(f)
  {
  }

  /** Searchable fields that are not unique are left before the column is made. */
  predicate GivesColumn(f: Field) {
    f.name != "code" && f.name != "status" && HasRealColumn(f) && (f.searchable ==> f.unique)
  }

  function ColumnOf(f: Field): ColumnSpec { ColumnSpec(C.SqlType(f.kind), true, Generated(f.name, true)) }

  function FkName(entity: Entity, f: Field): string { "fk_" + C.TableNameFor(entity.name) + "_" + f.name }

  function FkOf(schemaName: string, f: Field): FkSpec
    requires C.IsForeignKey(f)
  {
    FkSpec(f.name, schemaName + "." + C.TableNameFor(f.refEntity.value), "id", Restrict, true)
  }

  /** What a schema says about one field. */
  ghost predicate Holds(entity: Entity, schemaName: string, f: Field, s: Schema) {
    && (f.name in s.columns <==> GivesColumn(f))
    && (GivesColumn(f) ==> s.columns[f.name] == ColumnOf(f))
    && (FkName(entity, f) in s.foreignKeys <==> GivesColumn(f) && C.IsForeignKey(f))
    && (GivesColumn(f) && C.IsForeignKey(f) ==> s.foreignKeys[FkName(entity, f)] == FkOf(schemaName, f))
  }

  ghost predicate SameAbout(entity: Entity, f: Field, s: Schema, t: Schema) {
    && (f.name in s.columns <==> f.name in t.columns)
    && (f.name in s.columns ==> s.columns[f.name] == t.columns[f.name])
    && (FkName(entity, f) in s.foreignKeys <==> FkName(entity, f) in t.foreignKeys)
    && (FkName(entity, f) in s.foreignKeys ==> s.foreignKeys[FkName(entity, f)] == t.foreignKeys[FkName(entity, f)])
  }

  lemma FkNamesDiffer(entity: Entity, f: Field, g: Field)
    requires f.name != g.name
    ensures FkName(entity, f) != FkName(entity, g)
  {
    hide C.TableNameFor;
    var prefix := "fk_" + C.TableNameFor(entity.name) + "_";
    assert FkName(entity, f)[|prefix|..] == f.name && FkName(entity, g)[|prefix|..] == g.name;
  }

  lemma OwnField(entity: Entity, schemaName: string, f: Field, s: Schema)
    requires C.WithField(entity, schemaName, f, s).Ok?
    requires f.name !in s.columns && FkName(entity, f) !in s.foreignKeys
    ensures Holds(entity, schemaName, f, C.WithField(entity, schemaName, f, s).value)
  {
    hide C.TableNameFor, C.IndexName, C.FieldIndexExpression, C.FrameworkColumns, C.WithTenantPrefix;
  }

  lemma OtherField(entity: Entity, schemaName: string, f: Field, g: Field, s: Schema)
    requires C.WithField(entity, schemaName, g, s).Ok? && f.name != g.name
    ensures SameAbout(entity, f, s, C.WithField(entity, schemaName, g, s).value)
  {
    hide C.TableNameFor, C.IndexName, C.FieldIndexExpression, C.FrameworkColumns, C.WithTenantPrefix;
    FkNamesDiffer(entity, f, g);
  }

  lemma {:induction false} OtherFields(entity: Entity, schemaName: string, f: Field, fields: seq<Field>, s: Schema)
    requires C.WithFields(entity, schemaName, fields, s).Ok? && forall g :: g in fields ==> f.name != g.name
    ensures SameAbout(entity, f, s, C.WithFields(entity, schemaName, fields, s).value)
    decreases |fields|
  {
    hide C.WithField, FkName;
    if |fields| > 0 {
      OtherField(entity, schemaName, f, fields[0], s);
      OtherFields(entity, schemaName, f, fields[1..], C.WithField(entity, schemaName, fields[0], s).value);
    }
  }

  lemma {:induction false} FieldIsHeld(entity: Entity, schemaName: string, f: Field, fields: seq<Field>, s: Schema)
    requires C.WithFields(entity, schemaName, fields, s).Ok? && DistinctNames(fields) && f in fields
    requires f.name !in s.columns && FkName(entity, f) !in s.foreignKeys
    ensures Holds(entity, schemaName, f, C.WithFields(entity, schemaName, fields, s).value)
    decreases |fields|
  {
    hide C.WithField, FkName, GivesColumn, FkOf, ColumnOf;
    var t := C.WithField(entity, schemaName, fields[0], s).value;
    if f == fields[0] {
      OwnField(entity, schemaName, f, s);
      OtherFields(entity, schemaName, f, fields[1..], t);
    } else {
      var i :| 0 <= i < |fields| && fields[i] == f;
      assert fields[1..][i - 1] == f;
      OtherField(entity, schemaName, f, fields[0], s);
      FieldIsHeld(entity, schemaName, f, fields[1..], t);
    }
  }

  lemma {:induction false} ConstraintsAddIndexesOnly(entity: Entity, cs: seq<UniqueConstraint>, s: Schema)
    ensures C.WithConstraints(entity, cs, s).columns == s.columns
            && C.WithConstraints(entity, cs, s).foreignKeys == s.foreignKeys
    decreases |cs|
  {
    hide C.CompositeUniqueIndexName, Join;
    if |cs| > 0 { ConstraintsAddIndexesOnly(entity, cs[1..], C.WithConstraint(entity, cs[0], s)); }
  }

  /** In a compiled schema a field with its own name has a synced column, and a reference its foreign key, exactly
      when the field gives a column. */
  lemma CompiledField(entity: Entity, f: Field)
    requires C.CompileOf(entity).Ok? && DistinctNames(entity.fields) && f in entity.fields
             && f.name !in C.FrameworkColumns()
    ensures Holds(entity, C.SchemaPart(entity.table).value, f, C.CompileOf(entity).value)
  {
    hide C.WithField, C.FrameworkColumns, C.TableNameFor, C.IndexName, Holds;
    var schemaName := C.SchemaPart(entity.table).value;
    FieldIsHeld(entity, schemaName, f, entity.fields, C.BaseSchema(entity));
    ConstraintsAddIndexesOnly(entity, entity.uniqueConstraints,
      C.WithFields(entity, schemaName, entity.fields, C.BaseSchema(entity)).value);
    HoldsOfSame(entity, schemaName, f, C.WithFields(entity, schemaName, entity.fields, C.BaseSchema(entity)).value,
      C.CompileOf(entity).value);
  }

  lemma HoldsOfSame(entity: Entity, schemaName: string, f: Field, s: Schema, t: Schema)
    requires Holds(entity, schemaName, f, s) && s.columns == t.columns && s.foreignKeys == t.foreignKeys
    ensures Holds(entity, schemaName, f, t)
  {
  }

  // ---------------------------------------------------------------- against what queries read

  lemma {:induction false} LastIsDeclared(fields: seq<Field>, f: Field)
    requires DistinctNames(fields) && f in fields
    ensures F.Declared(F.ByName(fields), f.name) == Some(f)
    decreases |fields|
  {
    var n := |fields| - 1;
    if f != fields[n] {
      var i :| 0 <= i < |fields| && fields[i] == f;
      assert fields[..n][i] == f;
      LastIsDeclared(fields[..n], f);
    }
  }

  /** A composite constraint keys on the declared field, or on text of a name nobody declared. */
  lemma {:induction false} ConstraintField(fields: seq<Field>, name: string)
    requires DistinctNames(fields)
    ensures var g := C.FieldNamed(fields, name);
            && (forall f :: f in fields && f.name == name ==> g == f)
            && ((forall f :: f in fields ==> f.name != name) ==>
               g.name == "" && g.kind == KindString && !HasOwnColumn(g))
    decreases |fields|
  {
    if |fields| > 0 {
      var n := |fields| - 1;
      ConstraintField(fields[..n], name);
      forall f | f in fields ensures f == fields[n] || f in fields[..n] {
        var i :| 0 <= i < |fields| && fields[i] == f;
        if i < n { assert fields[..n][i] == f; }
      }
      forall f | f in fields[..n] ensures f in fields && f.name != fields[n].name {
        var i :| 0 <= i < n && fields[..n][i] == f;
        assert fields[i] == f;
      }
    }
  }

  /** JQL compares a field as the type of its column. Money columns are narrowed to eighteen digits, four of them
      fractional, and what JQL compares without a type is stored as text or JSON. */
  lemma ColumnTypesAgree(k: Kind)
    ensures match J.KindType(k)
            case Some(t) => C.SqlType(k) == (if k == KindMoney then t + "(18,4)" else t)
            case None => C.SqlType(k) == (if k == KindJson then "jsonb" else "text")
    ensures J.KindType(k).None? <==> k in {KindString, KindEnum, KindJson}
  {
    assert "numeric" + "(18,4)" == "numeric(18,4)";
  }

  lemma {:induction false} DeclaredIsField(fields: seq<Field>, name: string)
    requires F.Declared(F.ByName(fields), name).Some?
    ensures var f := F.Declared(F.ByName(fields), name).value; f in fields && f.name == name
    decreases |fields|
  {
    var n := |fields| - 1;
    if fields[n].name != name { DeclaredIsField(fields[..n], name); }
  }

  lemma {:induction false} FirstIsFound(fields: seq<Field>, f: Field)
    requires DistinctNames(fields) && f in fields
    ensures FindField(fields, f.name) == Some(f)
    decreases |fields|
  {
    if f != fields[0] {
      var i :| 0 <= i < |fields| && fields[i] == f;
      assert fields[1..][i - 1] == f;
      FirstIsFound(fields[1..], f);
    }
  }

  lemma {:induction false} FoundIsField(fields: seq<Field>, name: string)
    requires FindField(fields, name).Some?
    ensures var f := FindField(fields, name).value; f in fields && f.name == name
    decreases |fields|
  {
    if fields[0].name != name { FoundIsField(fields[1..], name); }
  }

  /** A filter or sort on this name reads the column of that name. */
  ghost predicate SortReadsColumn(entity: Entity, name: string, ps: seq<Bind>) {
    K.SortExpression(name, F.Declared(F.ByName(entity.fields), name), ps).toks == [Quoted(name)]
  }

  /** A JQL condition on this name reads the column of that name. */
  ghost predicate JqlReadsColumn(entity: Entity, name: string, ps: seq<Bind>) {
    J.ResolveField(name, entity, ps).Ok? && J.ResolveField(name, entity, ps).value.base == [Quoted(name)]
  }

  /** Filters, sorts and JQL read the same names from columns: those of the fields with a real column. */
  lemma QueriesReadAlike(entity: Entity, name: string, ps: seq<Bind>)
    requires DistinctNames(entity.fields)
    ensures SortReadsColumn(entity, name, ps) <==> JqlReadsColumn(entity, name, ps)
    ensures SortReadsColumn(entity, name, ps) <==>
            && name != "createdAt" && name != "updatedAt"
            && exists f :: f in entity.fields && f.name == name && HasRealColumn(f)
  {
    var declared, found := F.Declared(F.ByName(entity.fields), name), FindField(entity.fields, name);
    if declared.Some? {
      DeclaredIsField(entity.fields, name);
      FirstIsFound(entity.fields, declared.value);
    }
    if found.Some? {
      FoundIsField(entity.fields, name);
      LastIsDeclared(entity.fields, found.value);
    }
    forall f | f in entity.fields && f.name == name ensures declared == Some(f) { LastIsDeclared(entity.fields, f); }
  }

  /** A field that is searchable, not unique, and read from a real column. */
  ghost predicate LosesColumn(f: Field) {
    && HasRealColumn(f) && f.searchable && !f.unique
    && f.name != "code" && f.name != "status" && f.name != "createdAt" && f.name != "updatedAt"
  }

  lemma {:induction false} NoCollision(entity: Entity, schemaName: string, f: Field, fields: seq<Field>, s: Schema)
    requires C.WithFields(entity, schemaName, fields, s).Ok? && f in fields && f.name in C.FrameworkColumns()
    ensures f.name == "code" || f.name == "status"
    decreases |fields|
  {
    hide C.FrameworkColumns;
    if f != fields[0] {
      NoCollision(entity, schemaName, f, fields[1..], C.WithField(entity, schemaName, fields[0], s).value);
    }
  }

  lemma CodeAndStatus()
    ensures "code" in C.FrameworkColumns() && "status" in C.FrameworkColumns()
  {
  }

  /** A column that queries read exists in the compiled schema if and only if its field is not one that loses it. */
  lemma ReadColumnExists(entity: Entity, f: Field, ps: seq<Bind>)
    requires C.CompileOf(entity).Ok? && DistinctNames(entity.fields) && f in entity.fields
             && SortReadsColumn(entity, f.name, ps)
    ensures f.name in C.CompileOf(entity).value.columns <==> !LosesColumn(f)
  {
    hide K.SortExpression, C.FrameworkColumns, F.ByName, C.WithFields, C.WithConstraints, C.BaseSchema, C.TableNameFor;
    QueriesReadAlike(entity, f.name, ps);
    forall g | g in entity.fields && g.name == f.name ensures g == f {
      LastIsDeclared(entity.fields, f);
      LastIsDeclared(entity.fields, g);
    }
    CodeAndStatus();
    if f.name in C.FrameworkColumns() {
      NoCollision(entity, C.SchemaPart(entity.table).value, f, entity.fields, C.BaseSchema(entity));
      C.CompileIsCompiled(entity);
    } else {
      CompiledField(entity, f);
    }
  }

  /** The query side and the reconciler agree on the whole entity if and only if no field loses its column. */
  lemma SidesAgree(entity: Entity, ps: seq<Bind>)
    requires C.CompileOf(entity).Ok? && DistinctNames(entity.fields)
    ensures (forall name :: SortReadsColumn(entity, name, ps) ==> name in C.CompileOf(entity).value.columns)
            <==> (forall f :: f in entity.fields ==> !LosesColumn(f))
  {
    hide C.CompileOf, SortReadsColumn;
    forall f | f in entity.fields && SortReadsColumn(entity, f.name, ps)
      ensures f.name in C.CompileOf(entity).value.columns <==> !LosesColumn(f)
    {
      ReadColumnExists(entity, f, ps);
    }
    forall name | SortReadsColumn(entity, name, ps) ensures exists f :: f in entity.fields && f.name == name {
      QueriesReadAlike(entity, name, ps);
    }
    forall f | f in entity.fields && LosesColumn(f) ensures SortReadsColumn(entity, f.name, ps) {
      QueriesReadAlike(entity, f.name, ps);
    }
  }

  /** Every reference gets its foreign key, unless it is searchable without being unique. */
  lemma ReferenceHasForeignKey(entity: Entity, f: Field)
    requires C.CompileOf(entity).Ok? && DistinctNames(entity.fields) && f in entity.fields
    requires C.IsForeignKey(f) && f.name !in C.FrameworkColumns()
    ensures var d := C.CompileOf(entity).value;
            && (FkName(entity, f) in d.foreignKeys <==> (f.searchable ==> f.unique))
            && (FkName(entity, f) in d.foreignKeys ==>
               d.foreignKeys[FkName(entity, f)] == FkOf(C.SchemaPart(entity.table).value, f))
  {
    hide C.FrameworkColumns, C.CompileOf;
    CompiledField(entity, f);
    CodeAndStatus();
  }

  /** An entity with one reference field that is searchable and not unique. */
  function SearchableReference(): Entity {
    Entity("a", "s.a", [Field("owner", KindReference, false, false, None, Some("b"), true, None, false, None)], [], [])
  }

  /** It compiles, queries read its field from a column, and the schema has neither the column nor the foreign key. */
  lemma SearchableReferenceLosesColumn(ps: seq<Bind>)
    ensures var e := SearchableReference();
            var f := e.fields[0];
            && C.CompileOf(e).Ok? && DistinctNames(e.fields) && LosesColumn(f) && SortReadsColumn(e, f.name, ps)
            && f.name !in C.CompileOf(e).value.columns && FkName(e, f) !in C.CompileOf(e).value.foreignKeys
  {
    var e := SearchableReference();
    var f := e.fields[0];
    assert C.SchemaPart("s.a") == Some("s") by {
      assert "s.a"[1..] == ".a";
      assert C.SchemaPart(".a") == Some("") && ['s'] + "" == "s";
    }
    assert C.TableNameFor("a") == "a" by { assert C.TableNameFor("") == ""; assert "a"[1..] == ""; }
    assert U.ByteLength("a") <= 4 by { assert "a"[1..] == ""; }
    OwnerIsFree();
    assert e.fields[1..] == [];
    assert C.WithFields(e, "s", e.fields, C.BaseSchema(e)).Ok?;
    QueriesReadAlike(e, f.name, ps);
    ReadColumnExists(e, f, ps);
    ReferenceHasForeignKey(e, f);
  }

  lemma OwnerIsFree()
    ensures "owner" !in C.FrameworkColumns() && "owner" != "code" && "owner" != "status" && "owner" != "createdAt"
            && "owner" != "updatedAt"
  {
    assert |"owner"| == 5;
    assert forall n :: n in C.FrameworkColumns() ==> n != "owner" by {
      assert "owner"[0] == 'o';
      forall n | n in C.FrameworkColumns() ensures n != "owner" { NamesStartOtherwise(n); }
    }
    assert "owner"[0] == 'o' && "code"[0] == 'c' && "status"[0] == 's' && "createdAt"[0] == 'c'
      && "updatedAt"[0] == 'u';
  }

  lemma NamesStartOtherwise(n: string)
    requires n in C.FrameworkColumns()
    ensures |n| > 0 && n[0] != 'o'
  {
  }
}
