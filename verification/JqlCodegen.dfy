/** Compilation of a JQL tree to SQL: the emitted text, read with SQL's precedence and with its
    placeholders looked up in the final parameter list, has the tree's three-valued meaning. */
module JqlCodegen {
  import opened Prelude
  import opened Json
  import opened Metadata
  import opened Sql
  import opened SqlReading
  import opened SqlBuilder
  import opened Substring
  import opened Jql

  // ---------------------------------------------------------------- fields and operators

  datatype FieldType = FText | FNumber | FMoney | FBoolean | FDate | FDatetime | FUuid

  function CastName(t: FieldType): Option<string> {
    match t
    case FNumber => Some("double precision")
    case FMoney => Some("numeric")
    case FBoolean => Some("boolean")
    case FDate => Some("date")
    case FDatetime => Some("timestamptz")
    case FUuid => Some("uuid")
    case FText => None
  }

  function CastSuffix(t: FieldType): seq<Tok> {
    match CastName(t) { case Some(ty) => [CastTo(ty)] case None => [] }
  }

  function TypeOfKind(k: Kind): FieldType {
    match k
    case KindString => FText
    case KindEnum => FText
    case KindJson => FText
    case KindNumber => FNumber
    case KindMoney => FMoney
    case KindBoolean => FBoolean
    case KindDate => FDate
    case KindDatetime => FDatetime
    case KindReference => FUuid
    case KindId => FUuid
  }

  datatype FieldRef = FieldRef(base: seq<Tok>, ftype: FieldType, params: seq<Bind>)

  function ResolveField(name: string, entity: Entity, ps: seq<Bind>): (r: Result<FieldRef, JqlError>)
    ensures r.Ok? ==> ps <= r.value.params
  {
    if name == "createdAt" then Ok(FieldRef([Word("created_at")], FDatetime, ps))
    else if name == "updatedAt" then Ok(FieldRef([Word("updated_at")], FDatetime, ps))
    else match FindField(entity.fields, name)
      case None => Err(UnknownField(name))
      case Some(f) =>
        if HasRealColumn(f) then Ok(FieldRef([Quoted(name)], TypeOfKind(f.kind), ps))
        else Ok(FieldRef(JsonPath(|ps| + 1), TypeOfKind(f.kind), ps + [TextBind(name)]))
  }

  predicate OpAllowed(op: JqlOp, t: FieldType) {
    match op
    case JEq => true
    case JNe => true
    case JContains => t == FText
    case JNotContains => t == FText
    case _ => t == FNumber || t == FMoney || t == FDate || t == FDatetime
  }

  function BindText(v: JqlValue): string {
    match v { case JText(s) => s case JFlag(b) => if b then "true" else "false" }
  }

  function SqlSymbol(op: JqlOp): string {
    match op
    case JEq => "="
    case JNe => "!="
    case JGt => ">"
    case JGte => ">="
    case JLt => "<"
    case _ => "<="
  }

  function Lhs(f: FieldRef): seq<Tok> { [LP] + f.base + [RP] + CastSuffix(f.ftype) }

  function Placeholders(values: seq<JqlValue>, t: FieldType, n: nat): seq<seq<Tok>> {
    if |values| == 0 then [] else [[Dollar(n + 1)] + CastSuffix(t)] + Placeholders(values[1..], t, n + 1)
  }

  function ValueBinds(values: seq<JqlValue>): seq<Bind> {
    if |values| == 0 then [] else [TextBind(BindText(values[0]))] + ValueBinds(values[1..])
  }

  // ---------------------------------------------------------------- what compileJqlExpr emits

  function Compile(e: Jql, entity: Entity, ps: seq<Bind>): (r: Result<Emitted, JqlError>)
    ensures r.Ok? ==> ps <= r.value.params
    decreases e, 1
  {
    match e
    case JAnd(parts) =>
      (match CompileParts(parts, entity, ps)
       case Err(m) => Err(m)
       case Ok((texts, qs)) => Ok(Emitted(Parens(Join(texts, [KAnd])), qs)))
    case JOr(parts) =>
      (match CompileParts(parts, entity, ps)
       case Err(m) => Err(m)
       case Ok((texts, qs)) => Ok(Emitted(Parens(Join(texts, [KOr])), qs)))
    case JNot(inner) =>
      (match Compile(inner, entity, ps)
       case Err(m) => Err(m)
       case Ok(em) => Ok(Emitted(Parens([KNot] + em.toks), em.params)))
    case JIsEmpty(field, negate) =>
      (match ResolveField(field, entity, ps)
       case Err(m) => Err(m)
       case Ok(f) => Ok(Emitted(Parens(Lhs(f) + NullTest(negate)), f.params)))
    case JCompare(field, op, value) =>
      (match ResolveField(field, entity, ps)
       case Err(m) => Err(m)
       case Ok(f) =>
         if !OpAllowed(op, f.ftype) then Err(OperatorNotSupported(field))
         else if op == JContains || op == JNotContains then
           if value.JFlag? then Err(NeedsText(field))
           else Ok(Emitted(Parens(Lhs(f) + IlikeTest(op == JNotContains) + [Dollar(|f.params| + 1)]),
                           f.params + [TextBind(IlikePattern(value.s))]))
         else Ok(Emitted(Parens(Lhs(f) + [Op(SqlSymbol(op))] + ([Dollar(|f.params| + 1)] + CastSuffix(f.ftype))),
                         f.params + [TextBind(BindText(value))])))
    case JIn(field, negate, values) =>
      if |values| == 0 then Err(EmptyList(field))
      else match ResolveField(field, entity, ps)
        case Err(m) => Err(m)
        case Ok(f) =>
          var phs := Placeholders(values, f.ftype, |f.params|);
          Ok(Emitted(Parens(Lhs(f) + InTest(negate) + (Join(phs, [Comma]) + [RP])), f.params + ValueBinds(values)))
  }

  function CompileParts(
    parts: seq<Jql>, entity: Entity, ps: seq<Bind>): (r: Result<(seq<seq<Tok>>, seq<Bind>), JqlError>)
    ensures r.Ok? ==> ps <= r.value.1 && |r.value.0| == |parts|
    decreases parts, 0
  {
    if |parts| == 0 then Ok(([], ps))
    else match Compile(parts[0], entity, ps)
      case Err(m) => Err(m)
      case Ok(em) =>
        match CompileParts(parts[1..], entity, em.params)
        case Err(m) => Err(m)
        case Ok((texts, qs)) => Ok(([em.toks] + texts, qs))
  }

  // ---------------------------------------------------------------- compileJqlExpr, pushing as it goes

  /** resolveJqlField: a linear search of the declared fields, pushing the field name when it stays in `data`. */
  method ResolveJqlField(
    name: string, entity: Entity, params: ParamBuilder)
      returns (r: Result<(seq<Tok>, FieldType), JqlError>)
    modifies params
    ensures match ResolveField(name, entity, old(params.params))
            case Err(m) => r == Err(m) && params.params == old(params.params)
            case Ok(f) => r == Ok((f.base, f.ftype)) && params.params == f.params
  {
    if name == "createdAt" { return Ok(([Word("created_at")], FDatetime)); }
    if name == "updatedAt" { return Ok(([Word("updated_at")], FDatetime)); }
    var i := 0;
    while i < |entity.fields| && entity.fields[i].name != name
      invariant 0 <= i <= |entity.fields|
      invariant FindField(entity.fields, name) == FindField(entity.fields[i..], name)
    {
      assert entity.fields[i..][1..] == entity.fields[i + 1..];
      i := i + 1;
    }
    if i == |entity.fields| { return Err(UnknownField(name)); }
    var field := entity.fields[i];
    var ftype := TypeOfKind(field.kind);
    if HasRealColumn(field) { return Ok(([Quoted(name)], ftype)); }
    var ph := params.Push(TextBind(name));
    return Ok(([Word("jsonb_extract_path_text"), LP] + (Join([[Word("data")], [ph]], [Comma]) + [RP]), ftype));
  }

  lemma ValueStep(values: seq<JqlValue>, t: FieldType, ps: seq<Bind>, emitted: seq<seq<Tok>>)
    requires |values| > 0
    ensures ps + ValueBinds(values) == ps + [TextBind(BindText(values[0]))] + ValueBinds(values[1..])
    ensures emitted + Placeholders(values, t, |ps|)
            == emitted + [[Dollar(|ps| + 1)] + CastSuffix(t)] + Placeholders(values[1..], t, |ps| + 1)
  {
    hide CastSuffix;
    AppendAssoc(ps, [TextBind(BindText(values[0]))], ValueBinds(values[1..]));
    AppendAssoc(emitted, [[Dollar(|ps| + 1)] + CastSuffix(t)], Placeholders(values[1..], t, |ps| + 1));
  }

  /** One placeholder with its cast per value of an IN list. */
  method PushValues(values: seq<JqlValue>, t: FieldType, params: ParamBuilder) returns (placeholders: seq<seq<Tok>>)
    modifies params
    ensures params.params == old(params.params) + ValueBinds(values)
    ensures placeholders == Placeholders(values, t, |old(params.params)|)
  {
    hide CastSuffix;
    ghost var before := params.params;
    placeholders := [];
    var i := 0;
    while i < |values|
      invariant 0 <= i <= |values|
      invariant params.params + ValueBinds(values[i..]) == before + ValueBinds(values)
      invariant placeholders + Placeholders(values[i..], t, |params.params|) == Placeholders(values, t, |before|)
    {
      assert values[i..][1..] == values[i + 1..];
      ghost var earlier, emitted := params.params, placeholders;
      var ph := params.Push(TextBind(BindText(values[i])));
      placeholders := placeholders + [[ph] + CastSuffix(t)];
      ValueStep(values[i..], t, earlier, emitted);
      i := i + 1;
    }
    assert values[|values|..] == [] && placeholders + [] == placeholders && params.params + [] == params.params;
  }

  method CompileJqlExpr(e: Jql, entity: Entity, params: ParamBuilder) returns (r: Result<seq<Tok>, JqlError>)
    modifies params
    ensures match Compile(e, entity, old(params.params))
            case Err(m) => r == Err(m) && old(params.params) <= params.params
            case Ok(em) => r == Ok(em.toks) && params.params == em.params
    decreases e, 1
  {
    match e
    case JAnd(parts) =>
      var texts := CompileEach(parts, entity, params);
      r := match texts { case Err(m) => Err(m) case Ok(ts) => Ok([LP] + Join(ts, [KAnd]) + [RP]) };
    case JOr(parts) =>
      var texts := CompileEach(parts, entity, params);
      r := match texts { case Err(m) => Err(m) case Ok(ts) => Ok([LP] + Join(ts, [KOr]) + [RP]) };
    case JNot(inner) =>
      var s := CompileJqlExpr(inner, entity, params);
      r := match s { case Err(m) => Err(m) case Ok(ts) => Ok([LP] + ([KNot] + ts) + [RP]) };
    case JIsEmpty(field, negate) =>
      var f := ResolveJqlField(field, entity, params);
      if f.Err? { return Err(f.error); }
      var lhs := [LP] + f.value.0 + [RP] + CastSuffix(f.value.1);
      r := Ok([LP] + (lhs + NullTest(negate)) + [RP]);
    case JCompare(field, op, value) =>
      var f := ResolveJqlField(field, entity, params);
      if f.Err? { return Err(f.error); }
      if !OpAllowed(op, f.value.1) { return Err(OperatorNotSupported(field)); }
      var lhs := [LP] + f.value.0 + [RP] + CastSuffix(f.value.1);
      if op == JContains || op == JNotContains {
        if value.JFlag? { return Err(NeedsText(field)); }
        var pattern := JqlIlikePattern(value.s);
        var ph := params.Push(TextBind(pattern));
        r := Ok([LP] + (lhs + IlikeTest(op == JNotContains) + [ph]) + [RP]);
      } else {
        var ph := params.Push(TextBind(BindText(value)));
        r := Ok([LP] + (lhs + [Op(SqlSymbol(op))] + ([ph] + CastSuffix(f.value.1))) + [RP]);
      }
    case JIn(field, negate, values) =>
      if |values| == 0 { return Err(EmptyList(field)); }
      var f := ResolveJqlField(field, entity, params);
      if f.Err? { return Err(f.error); }
      var lhs := [LP] + f.value.0 + [RP] + CastSuffix(f.value.1);
      var placeholders := PushValues(values, f.value.1, params);
      r := Ok([LP] + (lhs + InTest(negate) + (Join(placeholders, [Comma]) + [RP])) + [RP]);
  }

  /** The loop that compiles the parts of a connective in order; it stops at the first error. */
  method CompileEach(parts: seq<Jql>, entity: Entity, params: ParamBuilder) returns (r: Result<seq<seq<Tok>>, JqlError>)
    modifies params
    ensures match CompileParts(parts, entity, old(params.params))
            case Err(m) => r == Err(m) && old(params.params) <= params.params
            case Ok((texts, qs)) => r == Ok(texts) && params.params == qs
    decreases parts, 0
  {
    var texts: seq<seq<Tok>> := [];
    ghost var ps0 := params.params;
    assert parts[0..] == parts;
    PrependNone(CompileParts(parts, entity, ps0));
    var i := 0;
    while i < |parts|
      invariant 0 <= i <= |parts|
      invariant ps0 <= params.params
      invariant CompileParts(parts, entity, ps0) == Prepend(texts, CompileParts(parts[i..], entity, params.params))
    {
      assert parts[i..][1..] == parts[i + 1..];
      ghost var done, earlier := texts, params.params;
      var s := CompileJqlExpr(parts[i], entity, params);
      if s.Err? { return Err(s.error); }
      texts := texts + [s.value];
      PrependOne(done, s.value, CompileParts(parts[i + 1..], entity, params.params));
      i := i + 1;
    }
    assert parts[|parts|..] == [] && texts + [] == texts;
    r := Ok(texts);
  }

  // ---------------------------------------------------------------- what a JQL tree means

  /** The stored value a JQL field name denotes, before any cast. */
  function Stored(name: string, entity: Entity, db: Db, row: Row): Value {
    if name == "createdAt" then ColumnOf(row, "created_at")
    else if name == "updatedAt" then ColumnOf(row, "updated_at")
    else match FindField(entity.fields, name)
      case Some(f) => if HasRealColumn(f) then ColumnOf(row, name) else JsonText(db, Lookup(row.data, name))
      case None => Null
  }

  /** The database type a field of this kind is compared as; None: as text. */
  function KindType(k: Kind): Option<string> {
    match k
    case KindNumber => Some("double precision")
    case KindMoney => Some("numeric")
    case KindBoolean => Some("boolean")
    case KindDate => Some("date")
    case KindDatetime => Some("timestamptz")
    case KindId => Some("uuid")
    case KindReference => Some("uuid")
    case _ => None
  }

  function TypeName(name: string, entity: Entity): Option<string> {
    if name == "createdAt" || name == "updatedAt" then Some("timestamptz")
    else match FindField(entity.fields, name) { case Some(f) => KindType(f.kind) case None => None }
  }

  function AsType(db: Db, ty: Option<string>, v: Value): Value {
    match ty { case Some(t) => CastValue(db, t, v) case None => v }
  }

  function FieldValue(name: string, entity: Entity, db: Db, row: Row): Value {
    AsType(db, TypeName(name, entity), Stored(name, entity, db, row))
  }

  function ValueText(v: JqlValue): string {
    if v == JFlag(true) then "true" else if v == JFlag(false) then "false" else v.s
  }

  function Operand(v: JqlValue, name: string, entity: Entity, db: Db): Value {
    AsType(db, TypeName(name, entity), Scalar(ValueText(v)))
  }

  /** The comparison operators by the database's equality and order, unknown when either side is. */
  function OrderTruth(db: Db, op: JqlOp, v: Value, w: Value): Tri
    requires op != JContains && op != JNotContains
  {
    if v == Null || w == Null then Unknown
    else match op
      case JEq => Of(v == w)
      case JNe => Of(v != w)
      case JGt => Of(db.less(w, v))
      case JGte => Of(db.less(w, v) || v == w)
      case JLt => Of(db.less(v, w))
      case JLte => Of(db.less(v, w) || v == w)
  }

  function OneOf(v: Value, values: seq<JqlValue>, name: string, entity: Entity, db: Db): Tri {
    if |values| == 0 then False3
    else Or3(OrderTruth(db, JEq, v, Operand(values[0], name, entity, db)), OneOf(v, values[1..], name, entity, db))
  }

  function Meaning(e: Jql, entity: Entity, db: Db, row: Row): Tri
    decreases e, 1
  {
    match e
    case JAnd(parts) => All3(Meanings(parts, entity, db, row))
    case JOr(parts) => Any3(Meanings(parts, entity, db, row))
    case JNot(inner) => Not3(Meaning(inner, entity, db, row))
    case JIsEmpty(field, negate) => Negated(negate, Of(FieldValue(field, entity, db, row) == Null))
    case JIn(field, negate, values) =>
      Negated(negate, OneOf(FieldValue(field, entity, db, row), values, field, entity, db))
    case JCompare(field, op, value) =>
      var v := FieldValue(field, entity, db, row);
      if op == JContains || op == JNotContains then
        Negated(op == JNotContains,
                if v.Scalar? then Of(Contains(Fold(db, v.s), Fold(db, ValueText(value)))) else Unknown)
      else OrderTruth(db, op, v, Operand(value, field, entity, db))
  }

  function Meanings(parts: seq<Jql>, entity: Entity, db: Db, row: Row): seq<Tri>
    decreases parts, 0
  {
    if |parts| == 0 then [] else [Meaning(parts[0], entity, db, row)] + Meanings(parts[1..], entity, db, row)
  }

  // ---------------------------------------------------------------- reading back what was emitted

  lemma BaseReads(name: string, entity: Entity, ps: seq<Bind>, db: Db, row: Row, qs: seq<Bind>) returns (e: Expr)
    requires ResolveField(name, entity, ps).Ok? && ResolveField(name, entity, ps).value.params <= qs
    ensures AsPrimary(ResolveField(name, entity, ps).value.base, e)
    ensures ResolveField(name, entity, ps).value.base != [] && ResolveField(name, entity, ps).value.base[0] != KNot
    ensures CastName(ResolveField(name, entity, ps).value.ftype) == TypeName(name, entity)
    ensures Eval(e, db, row, qs) == Stored(name, entity, db, row)
  {
    var f := ResolveField(name, entity, ps).value;
    if name == "createdAt" {
      ReadAtom(Word("created_at"));
      e := Column("created_at");
    } else if name == "updatedAt" {
      ReadAtom(Word("updated_at"));
      e := Column("updated_at");
    } else if HasRealColumn(FindField(entity.fields, name).value) {
      ReadAtom(Quoted(name));
      e := Column(name);
    } else {
      JsonPathReads(|ps| + 1);
      JsonPathValue(name, db, row, ps, qs);
      e := Call("jsonb_extract_path_text", [Column("data"), Param(|ps| + 1)]);
    }
  }

  /** A primary with the field type's cast, or without one for text. */
  lemma CastReads(p: seq<Tok>, e: Expr, t: FieldType, db: Db, row: Row, qs: seq<Bind>) returns (c: Expr)
    requires AsPrimary(p, e)
    ensures AsOperand(p + CastSuffix(t), c)
    ensures Eval(c, db, row, qs) == AsType(db, CastName(t), Eval(e, db, row, qs))
  {
    match CastName(t) {
      case Some(ty) =>
        ReadCastTo(p, e, ty);
        c := Cast(e, ty);
      case None =>
        PrimaryIsOperand(p, e);
        assert p + CastSuffix(t) == p;
        c := e;
    }
  }

  lemma LhsReads(name: string, entity: Entity, ps: seq<Bind>, db: Db, row: Row, qs: seq<Bind>) returns (e: Expr)
    requires ResolveField(name, entity, ps).Ok? && ResolveField(name, entity, ps).value.params <= qs
    ensures AsOperand(Lhs(ResolveField(name, entity, ps).value), e)
    ensures CastName(ResolveField(name, entity, ps).value.ftype) == TypeName(name, entity)
    ensures Eval(e, db, row, qs) == FieldValue(name, entity, db, row)
  {
    var f := ResolveField(name, entity, ps).value;
    var b := BaseReads(name, entity, ps, db, row, qs);
    PrimaryIsNegation(f.base, b);
    NegationIsConjunction(f.base, b);
    ConjunctionIsCondition(f.base, b);
    ReadParen(f.base, b);
    e := CastReads([LP] + f.base + [RP], b, f.ftype, db, row, qs);
  }

  lemma {:induction false} PlaceholdersRead(
    values: seq<JqlValue>, name: string, entity: Entity, t: FieldType, ps: seq<Bind>, db: Db, row: Row, qs: seq<Bind>,
    v: Value)
    returns (es: seq<Expr>)
    requires ps + ValueBinds(values) <= qs && CastName(t) == TypeName(name, entity)
    ensures AllConditions(Placeholders(values, t, |ps|), es) && |es| == |values|
    ensures InValues(db, v, EvalSeq(es, db, row, qs)) == OneOf(v, values, name, entity, db)
    decreases |values|
  {
    if |values| == 0 {
      es := [];
    } else {
      var ps1 := ps + [TextBind(BindText(values[0]))];
      assert ps + ValueBinds(values) == ps1 + ValueBinds(values[1..]);
      BindAt(ps, TextBind(BindText(values[0])), qs);
      ReadAtom(Dollar(|ps| + 1));
      var c := CastReads([Dollar(|ps| + 1)], Param(|ps| + 1), t, db, row, qs);
      OperandIsPredicate([Dollar(|ps| + 1)] + CastSuffix(t), c);
      PredicateIsCondition([Dollar(|ps| + 1)] + CastSuffix(t), c);
      var rest := PlaceholdersRead(values[1..], name, entity, t, ps1, db, row, qs, v);
      es := [c] + rest;
      assert es[1..] == rest;
      assert EvalSeq(es, db, row, qs)[1..] == EvalSeq(rest, db, row, qs);
    }
  }

  lemma ContainsReads(
    field: string, value: string, negate: bool, entity: Entity, ps: seq<Bind>, db: Db, row: Row, qs: seq<Bind>)
    returns (t: Expr)
    requires FoldKeepsMeta(db) && ResolveField(field, entity, ps).Ok?
    requires ResolveField(field, entity, ps).value.params + [TextBind(IlikePattern(value))] <= qs
    ensures var f := ResolveField(field, entity, ps).value;
            AsPrimary(Parens(Lhs(f) + IlikeTest(negate) + [Dollar(|f.params| + 1)]), t)
    ensures var v := FieldValue(field, entity, db, row);
            Truth(t, db, row, qs) ==
            Negated(negate, if v.Scalar? then Of(Contains(Fold(db, v.s), Fold(db, value))) else Unknown)
  {
    var f := ResolveField(field, entity, ps).value;
    var n := |f.params| + 1;
    var l := LhsReads(field, entity, ps, db, row, qs);
    BindAt(f.params, TextBind(IlikePattern(value)), qs);
    ReadAtom(Dollar(n));
    PrimaryIsOperand([Dollar(n)], Param(n));
    ReadIlike(Lhs(f), l, negate, [Dollar(n)], Param(n));
    t := Ilike(l, Param(n), negate);
    ParenthesisedReads(Lhs(f) + IlikeTest(negate) + [Dollar(n)], t);
    IlikeIsContainment(db, FieldValue(field, entity, db, row), value);
    assert Eval(Param(n), db, row, qs) == Scalar(IlikePattern(value));
    assert Eval(t, db, row, qs)
        == FromTri(Negated(negate, IlikeValue(db, FieldValue(field, entity, db, row), Scalar(IlikePattern(value)))));
  }

  lemma OrderingReads(
    field: string, value: JqlValue, sym: string, entity: Entity, ps: seq<Bind>, db: Db, row: Row, qs: seq<Bind>)
    returns (t: Expr)
    requires ResolveField(field, entity, ps).Ok?
    requires ResolveField(field, entity, ps).value.params + [TextBind(BindText(value))] <= qs
    ensures var f := ResolveField(field, entity, ps).value;
            AsPrimary(Parens(Lhs(f) + [Op(sym)] + ([Dollar(|f.params| + 1)] + CastSuffix(f.ftype))), t)
    ensures Truth(t, db, row, qs)
            == Compare(db, sym, FieldValue(field, entity, db, row), Operand(value, field, entity, db))
  {
    var f := ResolveField(field, entity, ps).value;
    var n := |f.params| + 1;
    var l := LhsReads(field, entity, ps, db, row, qs);
    BindAt(f.params, TextBind(BindText(value)), qs);
    ReadAtom(Dollar(n));
    var r := CastReads([Dollar(n)], Param(n), f.ftype, db, row, qs);
    ReadBinary(Lhs(f), l, sym, [Dollar(n)] + CastSuffix(f.ftype), r);
    t := Bin(sym, l, r);
    ParenthesisedReads(Lhs(f) + [Op(sym)] + ([Dollar(n)] + CastSuffix(f.ftype)), t);
  }

  lemma CompareMeans(e: Jql, entity: Entity, ps: seq<Bind>, db: Db, row: Row, qs: seq<Bind>) returns (t: Expr)
    requires e.JCompare? && FoldKeepsMeta(db)
    requires Compile(e, entity, ps).Ok? && Compile(e, entity, ps).value.params <= qs
    ensures AsPrimary(Compile(e, entity, ps).value.toks, t)
    ensures Truth(t, db, row, qs) == Meaning(e, entity, db, row)
  {
    hide AsPrimary, ResolveField, Lhs, Eval, Stored, FieldValue, Operand, Contains, IlikeTest, CastSuffix;
    if e.op == JContains || e.op == JNotContains {
      t := ContainsReads(e.field, e.value.s, e.op == JNotContains, entity, ps, db, row, qs);
    } else {
      t := OrderingReads(e.field, e.value, SqlSymbol(e.op), entity, ps, db, row, qs);
    }
  }

  lemma InMeans(e: Jql, entity: Entity, ps: seq<Bind>, db: Db, row: Row, qs: seq<Bind>) returns (t: Expr)
    requires e.JIn?
    requires Compile(e, entity, ps).Ok? && Compile(e, entity, ps).value.params <= qs
    ensures AsPrimary(Compile(e, entity, ps).value.toks, t)
    ensures Truth(t, db, row, qs) == Meaning(e, entity, db, row)
  {
    var f := ResolveField(e.field, entity, ps).value;
    var l := LhsReads(e.field, entity, ps, db, row, qs);
    var v := FieldValue(e.field, entity, db, row);
    var es := PlaceholdersRead(e.values, e.field, entity, f.ftype, f.params, db, row, qs, v);
    var phs := Placeholders(e.values, f.ftype, |f.params|);
    ReadIn(Lhs(f), l, e.negate, phs, es);
    ParenthesisedReads(Lhs(f) + InTest(e.negate) + (Join(phs, [Comma]) + [RP]), InList(l, es, e.negate));
    t := InList(l, es, e.negate);
  }

  lemma IsEmptyMeans(e: Jql, entity: Entity, ps: seq<Bind>, db: Db, row: Row, qs: seq<Bind>) returns (t: Expr)
    requires e.JIsEmpty?
    requires Compile(e, entity, ps).Ok? && Compile(e, entity, ps).value.params <= qs
    ensures AsPrimary(Compile(e, entity, ps).value.toks, t)
    ensures Truth(t, db, row, qs) == Meaning(e, entity, db, row)
  {
    var f := ResolveField(e.field, entity, ps).value;
    var l := LhsReads(e.field, entity, ps, db, row, qs);
    ReadIsNull(Lhs(f), l, e.negate);
    ParenthesisedReads(Lhs(f) + NullTest(e.negate), IsNull(l, e.negate));
    t := IsNull(l, e.negate);
  }

  /** Whatever stands around it, the text emitted for a query tree is read as one parenthesised
      condition, and that condition has the tree's meaning on every row. */
  lemma {:induction false} CompileMeans(
    e: Jql, entity: Entity, ps: seq<Bind>, db: Db, row: Row, qs: seq<Bind>)
      returns (t: Expr)
    requires WellFormed(e) && FoldKeepsMeta(db)
    requires Compile(e, entity, ps).Ok? && Compile(e, entity, ps).value.params <= qs
    ensures AsPrimary(Compile(e, entity, ps).value.toks, t)
    ensures Compile(e, entity, ps).value.toks != [] && Compile(e, entity, ps).value.toks[0] == LP
    ensures Truth(t, db, row, qs) == Meaning(e, entity, db, row)
    decreases e, 1
  {
    hide AsPrimary, AsNegation, Join, AllNegations, ResolveField, Stored, FieldValue, AndTree, OrTree;
    match e
    case JCompare(_, _, _) => t := CompareMeans(e, entity, ps, db, row, qs);
    case JIn(_, _, _) => t := InMeans(e, entity, ps, db, row, qs);
    case JIsEmpty(_, _) => t := IsEmptyMeans(e, entity, ps, db, row, qs);
    case JNot(inner) =>
      var s := CompileMeans(inner, entity, ps, db, row, qs);
      NotReads(Compile(inner, entity, ps).value.toks, s);
      t := Not(s);
    case JAnd(parts) =>
      var es := CompilePartsMean(parts, entity, ps, db, row, qs);
      AndReads(CompileParts(parts, entity, ps).value.0, es);
      TruthOfAnd(es, db, row, qs);
      t := AndTree(es);
    case JOr(parts) =>
      var es := CompilePartsMean(parts, entity, ps, db, row, qs);
      OrReads(CompileParts(parts, entity, ps).value.0, es);
      TruthOfOr(es, db, row, qs);
      t := OrTree(es);
  }

  lemma {:induction false} CompilePartsMean(
    parts: seq<Jql>, entity: Entity, ps: seq<Bind>, db: Db, row: Row, qs: seq<Bind>)
      returns (es: seq<Expr>)
    requires AllWellFormed(parts) && FoldKeepsMeta(db)
    requires CompileParts(parts, entity, ps).Ok? && CompileParts(parts, entity, ps).value.1 <= qs
    ensures AllNegations(CompileParts(parts, entity, ps).value.0, es)
    ensures Truths(es, db, row, qs) == Meanings(parts, entity, db, row)
    decreases parts, 0
  {
    hide AsPrimary, AsNegation, Compile, Meaning, Eval;
    if |parts| == 0 {
      es := [];
    } else {
      var em := Compile(parts[0], entity, ps).value;
      var s := CompileMeans(parts[0], entity, ps, db, row, qs);
      PrimaryIsNegation(em.toks, s);
      var rest := CompilePartsMean(parts[1..], entity, em.params, db, row, qs);
      es := [s] + rest;
      assert es[1..] == rest;
      assert Truths(es, db, row, qs) == [Truth(s, db, row, qs)] + Truths(rest, db, row, qs);
    }
  }

  // ---------------------------------------------------------------- which queries are answered

  /** A declared field, or one of the two timestamps every table has. */
  predicate Known(name: string, entity: Entity) {
    name == "createdAt" || name == "updatedAt" || exists f :: f in entity.fields && f.name == name
  }

  predicate HasOrder(name: string, entity: Entity) {
    || name == "createdAt" || name == "updatedAt"
    || (FindField(entity.fields, name).Some?
        && FindField(entity.fields, name).value.kind in {KindNumber, KindMoney, KindDate, KindDatetime})
  }

  predicate HasText(name: string, entity: Entity) {
    && name != "createdAt" && name != "updatedAt" && FindField(entity.fields, name).Some?
    && FindField(entity.fields, name).value.kind in {KindString, KindEnum, KindJson}
  }

  /** Fields are known, < and its like are asked of ordered kinds only, CONTAINS of texts with a text, and no list is
      empty. */
  predicate Answerable(e: Jql, entity: Entity)
    decreases e
  {
    match e
    case JAnd(parts) => forall i :: 0 <= i < |parts| ==> Answerable(parts[i], entity)
    case JOr(parts) => forall i :: 0 <= i < |parts| ==> Answerable(parts[i], entity)
    case JNot(inner) => Answerable(inner, entity)
    case JIsEmpty(field, _) => Known(field, entity)
    case JIn(field, _, values) => Known(field, entity) && |values| > 0
    case JCompare(field, op, value) =>
      && Known(field, entity)
      && (op in {JGt, JGte, JLt, JLte} ==> HasOrder(field, entity))
      && (op in {JContains, JNotContains} ==> HasText(field, entity) && value.JText?)
  }

  lemma {:induction false} FindsDeclared(fields: seq<Field>, name: string)
    ensures FindField(fields, name).Some? <==> exists f :: f in fields && f.name == name
    ensures FindField(fields, name).Some? ==>
              FindField(fields, name).value in fields && FindField(fields, name).value.name == name
    decreases |fields|
  {
    if |fields| > 0 { FindsDeclared(fields[1..], name); }
  }

  lemma LeafCompilesExactly(e: Jql, entity: Entity, ps: seq<Bind>)
    requires e.JCompare? || e.JIn? || e.JIsEmpty?
    ensures Compile(e, entity, ps).Ok? <==> Answerable(e, entity)
  {
    FindsDeclared(entity.fields, e.field);
    hide FindField, Lhs, SqlSymbol, IlikePattern, Placeholders, ValueBinds, Join;
  }

  /** A tree compiles if and only if it is answerable, whatever parameters came before. */
  lemma {:induction false} CompilesExactly(e: Jql, entity: Entity, ps: seq<Bind>)
    ensures Compile(e, entity, ps).Ok? <==> Answerable(e, entity)
    decreases e, 1
  {
    match e
    case JAnd(parts) => PartsCompileExactly(parts, entity, ps);
    case JOr(parts) => PartsCompileExactly(parts, entity, ps);
    case JNot(inner) => CompilesExactly(inner, entity, ps);
    case _ => LeafCompilesExactly(e, entity, ps);
  }

  lemma {:induction false} PartsCompileExactly(parts: seq<Jql>, entity: Entity, ps: seq<Bind>)
    ensures CompileParts(parts, entity, ps).Ok? <==> forall i :: 0 <= i < |parts| ==> Answerable(parts[i], entity)
    decreases parts, 0
  {
    if |parts| > 0 {
      CompilesExactly(parts[0], entity, ps);
      hide Compile, Answerable;
      var first := Compile(parts[0], entity, ps);
      if first.Ok? {
        PartsCompileExactly(parts[1..], entity, first.value.params);
        forall i | 0 < i < |parts| ensures parts[i] == parts[1..][i - 1] {}
      }
    }
  }
}
