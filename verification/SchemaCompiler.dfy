/** Compile: the physical schema an entity asks for. */
module SchemaCompiler {
  import opened Prelude
  import opened Metadata
  import opened PhysicalSchema
  import opened Utf8
  import R = Reconcile

  datatype CompileError = NameTooLong | NotQualified | Collides(field: string)

  // ---------------------------------------------------------------- the fixed columns

  function FrameworkColumn(sqlType: string, nullable: bool): ColumnSpec { ColumnSpec(sqlType, nullable, Framework) }

  function FrameworkColumns(): map<string, ColumnSpec> {
    map["id" := FrameworkColumn("uuid", false),
        "tenant_id" := FrameworkColumn("uuid", false),
        "code" := FrameworkColumn("varchar(120)", true),
        "status" := FrameworkColumn("varchar(80)", true),
        "data" := FrameworkColumn("jsonb", false),
        "version" := FrameworkColumn("integer", false),
        "deleted" := FrameworkColumn("boolean", false),
        "created_at" := FrameworkColumn("timestamptz", false),
        "updated_at" := FrameworkColumn("timestamptz", false),
        "created_by" := FrameworkColumn("uuid", true),
        "updated_by" := FrameworkColumn("uuid", true)]
  }

  /** A column of the statement that creates a table: its type, and whether it may be null. */
  datatype CreatedColumn = CreatedColumn(name: string, sqlType: string, notNull: bool)

  /** The primary key is not null as well. */
  const CREATE_TABLE := [
    CreatedColumn("id", "uuid", true), CreatedColumn("tenant_id", "uuid", true),
    CreatedColumn("code", "varchar(120)", false), CreatedColumn("status", "varchar(80)", false),
    CreatedColumn("data", "jsonb", true), CreatedColumn("version", "integer", true),
    CreatedColumn("deleted", "boolean", true), CreatedColumn("created_at", "timestamptz", true),
    CreatedColumn("updated_at", "timestamptz", true), CreatedColumn("created_by", "uuid", false),
    CreatedColumn("updated_by", "uuid", false)]

  function CreatedSpec(c: CreatedColumn): ColumnSpec { ColumnSpec(c.sqlType, !c.notNull, Framework) }

  /** A new table has the fixed columns every schema asks for, with their types and nullability. */
  lemma CreateTableAgrees(i: nat)
    requires i < |CREATE_TABLE|
    ensures CREATE_TABLE[i].name in FrameworkColumns()
    ensures FrameworkColumns()[CREATE_TABLE[i].name] == CreatedSpec(CREATE_TABLE[i])
  {
    var name := CREATE_TABLE[i].name;
    assert "created_at"[8] == 'a' && "created_by"[8] == 'b' && "updated_at"[8] == 'a' && "updated_by"[8] == 'b';
    assert i == 0 ==> |name| == 2;
  }

  lemma FrameworkOrigin(n: string)
    requires n in FrameworkColumns()
    ensures FrameworkColumns()[n].origin == Framework
  {
  }

  // ---------------------------------------------------------------- names

  function TableNameFor(entityName: string): string {
    if |entityName| == 0 then ""
    else [if entityName[0] == '.' then '_' else entityName[0]] + TableNameFor(entityName[1..])
  }

  /** The schema part of a qualified table name. */
  function SchemaPart(table: string): Option<string> {
    if |table| == 0 then None
    else if table[0] == '.' then Some("")
    else match SchemaPart(table[1..]) { case Some(s) => Some([table[0]] + s) case None => None }
  }

  function IndexName(entityName: string, field: string, kind: string): string {
    kind + "_" + TableNameFor(entityName) + "_" + field
  }

  const FNV_OFFSET: bv32 := 0x811c9dc5
  const FNV_PRIME: bv32 := 0x01000193

  function FnvStep(hash: bv32, b: bv8): bv32 { (hash ^ (b as bv32)) * FNV_PRIME }

  function Fnv1aFrom(hash: bv32, data: seq<bv8>): bv32
    decreases |data|
  {
    if |data| == 0 then hash else Fnv1aFrom(FnvStep(hash, data[0]), data[1..])
  }

  /** fnv1a with 32-bit wrap-around. */
  method Fnv1a(data: seq<bv8>) returns (hash: bv32)
    ensures hash == Fnv1aFrom(FNV_OFFSET, data)
  {
    hide FnvStep;
    hash := FNV_OFFSET;
    var i := 0;
    assert data[0..] == data;
    while i < |data|
      invariant 0 <= i <= |data|
      invariant Fnv1aFrom(FNV_OFFSET, data) == Fnv1aFrom(hash, data[i..])
    {
      assert data[i..][1..] == data[i + 1..] && data[i..][0] == data[i];
      hash := FnvStep(hash, data[i]);
      i := i + 1;
    }
  }

  function HexDigit(d: nat): char
    requires d < 16
  {
    "0123456789abcdef"[d]
  }

  /** Eight hexadecimal digits. */
  function Hex(v: nat, digits: nat): (s: string)
    ensures |s| == digits && ByteLength(s) == digits
  {
    if digits == 0 then ""
    else
      var rest := Hex(v / 16, digits - 1);
      ByteLengthConcat(rest, [HexDigit(v % 16)]);
      rest + [HexDigit(v % 16)]
  }

  function DigitValue(c: char): int {
    if '0' <= c <= '9' then c as int - '0' as int else if 'a' <= c <= 'f' then c as int - 'a' as int + 10 else -1
  }

  function HexValue(s: string): int {
    if |s| == 0 then 0 else 16 * HexValue(s[..|s| - 1]) + DigitValue(s[|s| - 1])
  }

  function Power16(n: nat): nat { if n == 0 then 1 else 16 * Power16(n - 1) }

  lemma DigitSpells(d: nat)
    requires d < 16
    ensures DigitValue(HexDigit(d)) == d
  {
    var digits := "0123456789abcdef";
    assert digits[0] == '0' && digits[1] == '1' && digits[2] == '2' && digits[3] == '3' && digits[4] == '4';
    assert digits[5] == '5' && digits[6] == '6' && digits[7] == '7' && digits[8] == '8' && digits[9] == '9';
    assert digits[10] == 'a' && digits[11] == 'b' && digits[12] == 'c' && digits[13] == 'd' && digits[14] == 'e';
    assert digits[15] == 'f';
  }

  /** The digits spell the number, lower-case, most significant first. */
  lemma {:induction false} HexSpells(v: nat, digits: nat)
    requires v < Power16(digits)
    ensures HexValue(Hex(v, digits)) == v
    decreases digits
  {
    hide DigitValue, HexDigit, ByteLength;
    if digits > 0 {
      HexSpells(v / 16, digits - 1);
      DigitSpells(v % 16);
      var s, rest := Hex(v, digits), Hex(v / 16, digits - 1);
      assert s == rest + [HexDigit(v % 16)];
      assert s[..|s| - 1] == rest && s[|s| - 1] == HexDigit(v % 16);
    }
  }

  const MAX_IDENTIFIER := 63

  /** A composite index name that fits the identifier limit: cut at a character and told apart by a hash. */
  function CompositeUniqueIndexName(entityName: string, fields: seq<string>): (r: string)
    ensures ByteLength(r) <= MAX_IDENTIFIER
  {
    var full := "uniq_" + TableNameFor(entityName) + "_" + Join(fields, "_");
    if ByteLength(full) <= MAX_IDENTIFIER then full
    else
      var suffix := "_" + Hex(Fnv1aFrom(FNV_OFFSET, Encode(full)) as nat, 8);
      var cut := TakeBytes(full, MAX_IDENTIFIER - 9);
      ByteLengthConcat("_", Hex(Fnv1aFrom(FNV_OFFSET, Encode(full)) as nat, 8));
      ByteLengthConcat(cut, suffix);
      cut + suffix
  }

  /** The name says the table and the fields in order. One that is too long keeps as many of its characters as leave
      room for an underscore and eight digits, and the digits spell the hash of the whole name. */
  lemma CompositeName(entityName: string, fields: seq<string>)
    ensures var full := "uniq_" + TableNameFor(entityName) + "_" + Join(fields, "_");
            var r := CompositeUniqueIndexName(entityName, fields);
            if ByteLength(full) <= 63 then r == full
            else var n := |r| - 9;
              && 0 <= n < |full| && r[..n] == full[..n] && r[n] == '_'
              && HexValue(r[n + 1..]) == Fnv1aFrom(FNV_OFFSET, Encode(full)) as nat
              && ByteLength(full[..n]) <= 54 < ByteLength(full[..n + 1])
  {
    hide Join, TableNameFor, Fnv1aFrom, Encode, HexValue, Hex, TakeBytes, ByteLength;
    var full := "uniq_" + TableNameFor(entityName) + "_" + Join(fields, "_");
    if ByteLength(full) > 63 {
      var h, cut := Fnv1aFrom(FNV_OFFSET, Encode(full)) as nat, TakeBytes(full, 54);
      var r := CompositeUniqueIndexName(entityName, fields);
      assert r == cut + ("_" + Hex(h, 8));
      assert |r| - 9 == |cut| && r[|cut| + 1..] == Hex(h, 8);
      assert full[..|full|] == full;
      assert cut != full && cut <= full;
      TakeBytesIsLongest(full, 54);
      assert Power16(8) == 0x1_0000_0000;
      HexSpells(h, 8);
    }
  }

  // ---------------------------------------------------------------- what one field adds

  function SqlType(k: Kind): string {
    match k
    case KindString => "text"
    case KindEnum => "text"
    case KindNumber => "double precision"
    case KindMoney => "numeric(18,4)"
    case KindBoolean => "boolean"
    case KindDate => "date"
    case KindDatetime => "timestamptz"
    case KindReference => "uuid"
    case KindId => "uuid"
    case KindJson => "jsonb"
  }

  predicate TenantScoped(scope: Option<Scope>) { scope != Some(ScopeGlobal) }

  predicate StaysInData(f: Field) {
    match f.storage
    case Some(StorageNative) => true
    case Some(StorageColumn) => false
    case None => !f.indexed && !f.sortable && !f.unique && !f.searchable
  }

  function Quote(name: string): string { "\"" + name + "\"" }

  function DataText(name: string): string { "(data ->> '" + name + "')" }

  function FieldIndexExpression(f: Field): string {
    if HasRealColumn(f) then Quote(f.name)
    else if f.kind == KindDate || f.kind == KindDatetime then DataText(f.name)
    else "(" + DataText(f.name) + "::" + SqlType(f.kind) + ")"
  }

  function WithTenantPrefix(expr: string, prefix: bool): string { if prefix then "\"tenant_id\", " + expr else expr }

  const LIVE_ROWS := "deleted = false"

  /** A unique index covers the live rows only; any other covers the table. */
  function FieldIndex(expr: string, lead: bool, unique: bool): IndexSpec {
    IndexSpec(WithTenantPrefix(expr, lead), unique, "", true, if unique then LIVE_ROWS else "")
  }

  function SearchIndex(f: Field): IndexSpec {
    IndexSpec(if IsFts(f) then "to_tsvector('simple', " + DataText(f.name) + ")"
      else DataText(f.name) + " gin_trgm_ops",
              false, "gin", true, "")
  }

  predicate IsForeignKey(f: Field) { f.kind == KindReference && f.refEntity.Some? }

  function IndexKind(f: Field): string { if f.unique then "uniq" else "idx" }

  function WithSearch(entity: Entity, f: Field, s: Schema): Schema {
    if f.searchable
      then s.(indexes :=
        s.indexes[IndexName(entity.name, f.name, if IsFts(f) then "gin" else "trgm") := SearchIndex(f)])
    else s
  }

  function WithColumn(entity: Entity, schemaName: string, f: Field, s: Schema): Schema {
    var tenantUnique := f.unique && TenantScoped(f.uniqueScope);
    var withColumn := s.(columns := s.columns[f.name := ColumnSpec(SqlType(f.kind), true, Generated(f.name, true))]);
    var withIndex :=
      if f.unique || f.indexed || f.sortable || IsForeignKey(f) then
        withColumn.(indexes := s.indexes[IndexName(entity.name, f.name, IndexKind(f)) :=
          FieldIndex(Quote(f.name), tenantUnique || (!f.unique && !IsForeignKey(f)), f.unique)])
      else withColumn;
    if IsForeignKey(f) then
      withIndex.(foreignKeys := s.foreignKeys["fk_" + TableNameFor(entity.name) + "_" + f.name :=
        FkSpec(f.name, schemaName + "." + TableNameFor(f.refEntity.value), "id", Restrict, true)])
    else withIndex
  }

  function WithExpressionIndex(entity: Entity, f: Field, s: Schema): Schema {
    s.(indexes := s.indexes[IndexName(entity.name, f.name, IndexKind(f)) :=
      FieldIndex(FieldIndexExpression(f), (f.unique && TenantScoped(f.uniqueScope)) || !f.unique, f.unique)])
  }

  /** One field of the entity: nothing, an index over `data`, or a real column with its index and foreign key. */
  function WithField(entity: Entity, schemaName: string, f: Field, s: Schema): Result<Schema, CompileError> {
    if f.name == "code" || f.name == "status" then Ok(s)
    else if f.name in FrameworkColumns() then Err(Collides(f.name))
    else
      var searched := WithSearch(entity, f, s);
      if f.searchable && !f.unique then Ok(searched)
      else if HasRealColumn(f) then Ok(WithColumn(entity, schemaName, f, searched))
      else if StaysInData(f) then Ok(searched)
      else Ok(WithExpressionIndex(entity, f, searched))
  }

  function WithFields(entity: Entity, schemaName: string, fields: seq<Field>, s: Schema): Result<Schema, CompileError>
    decreases |fields|
  {
    if |fields| == 0 then Ok(s)
    else match WithField(entity, schemaName, fields[0], s)
      case Err(m) => Err(m)
      case Ok(t) => WithFields(entity, schemaName, fields[1..], t)
  }

  // ---------------------------------------------------------------- composite constraints

  /** The last declaration of a name, or an undeclared field of the zero kind. */
  function FieldNamed(fields: seq<Field>, name: string): Field {
    if |fields| == 0 then Field("", KindString, false, false, None, None, false, None, false, None)
    else if fields[|fields| - 1].name == name then fields[|fields| - 1]
    else FieldNamed(fields[..|fields| - 1], name)
  }

  function Expressions(fields: seq<Field>, names: seq<string>): seq<string> {
    seq(|names|, i requires 0 <= i < |names| => FieldIndexExpression(FieldNamed(fields, names[i])))
  }

  function WithConstraint(entity: Entity, c: UniqueConstraint, s: Schema): Schema {
    s.(indexes := s.indexes[CompositeUniqueIndexName(entity.name, c.fields) :=
      FieldIndex(Join(Expressions(entity.fields, c.fields), ", "), TenantScoped(c.scope), true)])
  }

  function WithConstraints(entity: Entity, cs: seq<UniqueConstraint>, s: Schema): Schema
    decreases |cs|
  {
    if |cs| == 0 then s else WithConstraints(entity, cs[1..], WithConstraint(entity, cs[0], s))
  }

  function BaseSchema(entity: Entity): Schema {
    Schema(entity.table, FrameworkColumns(),
           map[IndexName(entity.name, "tenant_id", "idx") := IndexSpec("\"tenant_id\"", false, "", true, "")], map[],
             map[])
  }

  function CompileOf(entity: Entity): Result<Schema, CompileError> {
    if ByteLength(TableNameFor(entity.name)) > MAX_IDENTIFIER then Err(NameTooLong)
    else match SchemaPart(entity.table)
      case None => Err(NotQualified)
      case Some(schemaName) =>
        match WithFields(entity, schemaName, entity.fields, BaseSchema(entity))
        case Err(m) => Err(m)
        case Ok(s) => Ok(WithConstraints(entity, entity.uniqueConstraints, s))
  }

  method Compile(entity: Entity) returns (r: Result<Schema, CompileError>)
    ensures r == CompileOf(entity)
  {
    hide WithField, WithConstraint, BaseSchema, SchemaPart, TableNameFor, ByteLength;
    if ByteLength(TableNameFor(entity.name)) > MAX_IDENTIFIER { return Err(NameTooLong); }
    var schemaName := SchemaPart(entity.table);
    if schemaName.None? { return Err(NotQualified); }
    var s := BaseSchema(entity);
    var fields := entity.fields;
    var i := 0;
    assert fields[0..] == fields;
    while i < |fields|
      invariant 0 <= i <= |fields|
      invariant WithFields(entity, schemaName.value, fields, BaseSchema(entity))
                == WithFields(entity, schemaName.value, fields[i..], s)
    {
      assert fields[i..][1..] == fields[i + 1..] && fields[i..][0] == fields[i];
      var t := WithField(entity, schemaName.value, fields[i], s);
      if t.Err? { return Err(t.error); }
      s := t.value;
      i := i + 1;
    }
    ghost var withFields := s;
    var cs := entity.uniqueConstraints;
    i := 0;
    assert cs[0..] == cs;
    while i < |cs|
      invariant 0 <= i <= |cs|
      invariant WithConstraints(entity, cs, withFields) == WithConstraints(entity, cs[i..], s)
    {
      assert cs[i..][1..] == cs[i + 1..] && cs[i..][0] == cs[i];
      s := WithConstraint(entity, cs[i], s);
      i := i + 1;
    }
    r := Ok(s);
  }

  // ---------------------------------------------------------------- what the reconciler may rely on

  /** Columns never drop the framework ones; unique indexes are partial; foreign keys stand on real columns. */
  ghost predicate Sound(s: Schema) {
    && s.uniques == map[]
    && (forall n :: n in s.indexes ==> s.indexes[n].valid && (s.indexes[n].unique ==> s.indexes[n].where == LIVE_ROWS))
    && (forall n :: n in s.foreignKeys ==> s.foreignKeys[n].column in s.columns && s.foreignKeys[n].validated)
    && (forall n :: n in FrameworkColumns() ==> n in s.columns && s.columns[n] == FrameworkColumns()[n])
    && (forall n :: n in s.columns && n !in FrameworkColumns() ==> s.columns[n].origin == Generated(n, true))
  }

  lemma IndexKeepsSound(s: Schema, name: string, spec: IndexSpec)
    requires Sound(s) && spec.valid && (spec.unique ==> spec.where == LIVE_ROWS)
    ensures Sound(s.(indexes := s.indexes[name := spec]))
  {
    hide FrameworkColumns;
  }

  lemma ColumnKeepsSound(s: Schema, name: string, ty: string)
    requires Sound(s) && name !in FrameworkColumns()
    ensures Sound(s.(columns := s.columns[name := ColumnSpec(ty, true, Generated(name, true))]))
  {
    hide FrameworkColumns;
  }

  lemma FkKeepsSound(s: Schema, name: string, spec: FkSpec)
    requires Sound(s) && spec.column in s.columns && spec.validated
    ensures Sound(s.(foreignKeys := s.foreignKeys[name := spec]))
  {
    hide FrameworkColumns;
  }

  lemma ColumnFieldKeepsSound(entity: Entity, schemaName: string, f: Field, s: Schema)
    requires Sound(s) && f.name !in FrameworkColumns()
    ensures Sound(WithColumn(entity, schemaName, f, s))
  {
    hide Sound, FrameworkColumns, IndexName, TableNameFor, WithTenantPrefix, SqlType;
    var withColumn := s.(columns := s.columns[f.name := ColumnSpec(SqlType(f.kind), true, Generated(f.name, true))]);
    ColumnKeepsSound(s, f.name, SqlType(f.kind));
    var index := FieldIndex(Quote(f.name), (f.unique && TenantScoped(f.uniqueScope))
      || (!f.unique && !IsForeignKey(f)), f.unique);
    IndexKeepsSound(withColumn, IndexName(entity.name, f.name, IndexKind(f)), index);
    if IsForeignKey(f) {
      var fk := FkSpec(f.name, schemaName + "." + TableNameFor(f.refEntity.value), "id", Restrict, true);
      var name := "fk_" + TableNameFor(entity.name) + "_" + f.name;
      FkKeepsSound(withColumn, name, fk);
      FkKeepsSound(withColumn.(indexes := withColumn.indexes[IndexName(entity.name, f.name, IndexKind(f)) := index]),
        name, fk);
    }
  }

  lemma FieldKeepsSound(entity: Entity, schemaName: string, f: Field, s: Schema)
    requires Sound(s) && WithField(entity, schemaName, f, s).Ok?
    ensures Sound(WithField(entity, schemaName, f, s).value)
  {
    hide Sound, FrameworkColumns, IndexName, FieldIndexExpression, WithTenantPrefix, WithColumn;
    IndexKeepsSound(s, IndexName(entity.name, f.name, if IsFts(f) then "gin" else "trgm"), SearchIndex(f));
    var searched := WithSearch(entity, f, s);
    if f.name !in FrameworkColumns() { ColumnFieldKeepsSound(entity, schemaName, f, searched); }
    IndexKeepsSound(searched, IndexName(entity.name, f.name, IndexKind(f)),
                    FieldIndex(FieldIndexExpression(f), (f.unique && TenantScoped(f.uniqueScope))
                      || !f.unique, f.unique));
  }

  lemma {:induction false} FieldsKeepSound(entity: Entity, schemaName: string, fields: seq<Field>, s: Schema)
    requires Sound(s) && WithFields(entity, schemaName, fields, s).Ok?
    ensures Sound(WithFields(entity, schemaName, fields, s).value)
    decreases |fields|
  {
    hide Sound, WithField;
    if |fields| > 0 {
      FieldKeepsSound(entity, schemaName, fields[0], s);
      FieldsKeepSound(entity, schemaName, fields[1..], WithField(entity, schemaName, fields[0], s).value);
    }
  }

  lemma {:induction false} ConstraintsKeepSound(entity: Entity, cs: seq<UniqueConstraint>, s: Schema)
    requires Sound(s)
    ensures Sound(WithConstraints(entity, cs, s))
    decreases |cs|
  {
    hide FrameworkColumns, CompositeUniqueIndexName, Join, WithTenantPrefix;
    if |cs| > 0 { ConstraintsKeepSound(entity, cs[1..], WithConstraint(entity, cs[0], s)); }
  }

  /** Every schema the compiler emits meets what convergence asks of a desired schema. */
  lemma CompileIsCompiled(entity: Entity)
    requires CompileOf(entity).Ok?
    ensures R.Compiled(FrameworkColumns(), CompileOf(entity).value)
    ensures CompileOf(entity).value.table == entity.table
  {
    BaseIsSound(entity);
    FieldsKeepSound(entity, SchemaPart(entity.table).value, entity.fields, BaseSchema(entity));
    var s := WithFields(entity, SchemaPart(entity.table).value, entity.fields, BaseSchema(entity)).value;
    ConstraintsKeepSound(entity, entity.uniqueConstraints, s);
    FieldsKeepTable(entity, SchemaPart(entity.table).value, entity.fields, BaseSchema(entity));
    ConstraintsKeepTable(entity, entity.uniqueConstraints, s);
    forall n | n in FrameworkColumns() ensures FrameworkColumns()[n].origin == Framework { FrameworkOrigin(n); }
  }

  lemma BaseIsSound(entity: Entity)
    ensures Sound(BaseSchema(entity))
  {
    forall n | n in FrameworkColumns() ensures FrameworkColumns()[n].origin == Framework { FrameworkOrigin(n); }
    hide FrameworkColumns;
  }

  lemma {:induction false} FieldsKeepTable(entity: Entity, schemaName: string, fields: seq<Field>, s: Schema)
    requires WithFields(entity, schemaName, fields, s).Ok?
    ensures WithFields(entity, schemaName, fields, s).value.table == s.table
    decreases |fields|
  {
    hide FrameworkColumns, IndexName, TableNameFor;
    if |fields| > 0 {
      FieldsKeepTable(entity, schemaName, fields[1..], WithField(entity, schemaName, fields[0], s).value);
    }
  }

  lemma {:induction false} ConstraintsKeepTable(entity: Entity, cs: seq<UniqueConstraint>, s: Schema)
    ensures WithConstraints(entity, cs, s).table == s.table
    decreases |cs|
  {
    hide CompositeUniqueIndexName, Join;
    if |cs| > 0 { ConstraintsKeepTable(entity, cs[1..], WithConstraint(entity, cs[0], s)); }
  }
}
