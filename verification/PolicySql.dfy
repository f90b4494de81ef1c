/** Record policies as a WHERE clause: what the clause selects, the in-memory decision allows. */
module PolicySql {
  import opened Prelude
  import opened Json
  import opened Sql
  import opened SqlReading
  import opened SqlBuilder
  import opened Permission
  import opened Snapshot

  datatype ColType = ColUuid | ColText | ColTimestamptz

  datatype PolicySqlError =
    | CrossRecordCondition(attribute: string)
    | WorkflowAttribute
    | NotAScalar
    | NotAUuid
    | UuidOrdering
    | UnsupportedContains(attribute: string)
    | UnknownOperator(name: string)

  // ---------------------------------------------------------------- fields and values

  datatype ColumnRef = ColumnRef(toks: seq<Tok>, ct: ColType, params: seq<Bind>)

  function MappedColumn(name: string): Option<(string, ColType)> {
    if name == "createdBy" then Some(("created_by", ColUuid))
    else if name == "updatedBy" then Some(("updated_by", ColUuid))
    else if name == "status" then Some(("status", ColText))
    else if name == "createdAt" then Some(("created_at", ColTimestamptz))
    else if name == "updatedAt" then Some(("updated_at", ColTimestamptz))
    else None
  }

  function FieldExpression(name: string, ps: seq<Bind>): (r: Result<ColumnRef, PolicySqlError>)
    ensures r.Ok? ==> ps <= r.value.params
  {
    if '.' in name then Err(CrossRecordCondition(name))
    else match MappedColumn(name)
      case Some((column, ct)) => Ok(ColumnRef([Word(column)], ct, ps))
      case None => Ok(ColumnRef(JsonPath(|ps| + 1), ColText, ps + [TextBind(name)]))
  }

  /** A policy value as the SQL side reads it: a missing literal has no JSON text at all. */
  function Expected(value: PolicyValue, ctx: Context): Option<Json> {
    match value { case NoLiteral => None case _ => Some(ResolveValue(value, ctx)) }
  }

  function ScalarText(v: Option<Json>): Option<string> {
    match v
    case Some(JStr(s)) => Some(s)
    case Some(JNull) => Some("")
    case Some(JBool(b)) => Some(if b then "true" else "false")
    case Some(JNum(t)) => Some(t)
    case _ => None
  }

  function UuidText(codec: Codec, v: Option<Json>): Option<string> {
    match v { case Some(JStr(s)) => codec.uuid(s) case Some(JNull) => codec.uuid("") case _ => None }
  }

  /** bindScalar: the placeholder text and the value bound to it. */
  function BindScalar(codec: Codec, ct: ColType, v: Option<Json>, ps: seq<Bind>): (r: Result<Emitted, PolicySqlError>)
    ensures r.Ok? ==> ps <= r.value.params
  {
    match ct
    case ColUuid =>
      (match UuidText(codec, v)
       case None => Err(NotAUuid)
       case Some(u) => Ok(Emitted([Dollar(|ps| + 1)], ps + [UuidBind(u)])))
    case ColTimestamptz =>
      (match ScalarText(v)
       case None => Err(NotAScalar)
       case Some(t) => Ok(Emitted([Dollar(|ps| + 1), CastTo("timestamptz")], ps + [TextBind(t)])))
    case ColText =>
      (match ScalarText(v)
       case None => Err(NotAScalar)
       case Some(t) => Ok(Emitted([Dollar(|ps| + 1)], ps + [TextBind(t)])))
  }

  function BindScalars(
    codec: Codec, ct: ColType, values: seq<Json>,
    ps: seq<Bind>): (r: Result<(seq<seq<Tok>>, seq<Bind>), PolicySqlError>)
    ensures r.Ok? ==> ps <= r.value.1 && |r.value.0| == |values|
    decreases |values|
  {
    if |values| == 0 then Ok(([], ps))
    else match BindScalar(codec, ct, Some(values[0]), ps)
      case Err(m) => Err(m)
      case Ok(em) =>
        match BindScalars(codec, ct, values[1..], em.params)
        case Err(m) => Err(m)
        case Ok((phs, qs)) => Ok(([em.toks] + phs, qs))
  }

  function ListOf(v: Option<Json>): seq<Json> {
    match v { case Some(j) => (match AsArray(j) { case Some(items) => items case None => [] }) case None => [] }
  }

  predicate DecodesAsNumber(codec: Codec, v: Option<Json>) {
    match v
    case Some(JNum(_)) => true
    case Some(JNull) => true
    case Some(JStr(s)) => codec.isNumber(s)
    case _ => false
  }

  function OrderSymbol(op: Op): string {
    match op { case Gt => ">" case Gte => ">=" case Lt => "<" case _ => "<=" }
  }

  /** comparableExprAndValue: a numeric cast on both sides when the expected value reads as a number. */
  function CompileOrdering(codec: Codec, col: ColumnRef, op: Op, v: Option<Json>): (r: Result<Emitted, PolicySqlError>)
    ensures r.Ok? ==> col.params <= r.value.params
  {
    if col.ct == ColUuid then Err(UuidOrdering)
    else if col.ct == ColText && DecodesAsNumber(codec, v) then
      match ScalarText(v)
      case None => Err(NotAScalar)
      case Some(t) =>
        Ok(Emitted(Parens(col.toks) + [CastTo("numeric")] + [Op(OrderSymbol(op))]
                   + [Dollar(|col.params| + 1), CastTo("numeric")], col.params + [TextBind(t)]))
    else match BindScalar(codec, col.ct, v, col.params)
      case Err(m) => Err(m)
      case Ok(em) => Ok(Emitted(col.toks + [Op(OrderSymbol(op))] + em.toks, em.params))
  }

  // ---------------------------------------------------------------- what ConditionToSQL emits

  function CompileLeaf(codec: Codec, c: Condition, ctx: Context, ps: seq<Bind>): (r: Result<Emitted, PolicySqlError>)
    requires c.Leaf?
    ensures r.Ok? ==> ps <= r.value.params
  {
    if IsContextAttribute(c.attribute) then
      Ok(Emitted([if Holds(codec, c, JNull, ctx) then KTrue else KFalse], ps))
    else if WORKFLOW_PREFIX <= c.attribute then Err(WorkflowAttribute)
    else match FieldExpression(c.attribute, ps)
      case Err(m) => Err(m)
      case Ok(col) =>
        var v := Expected(c.value, ctx);
        match c.op
        case Eq => CompileEquality(codec, col, "=", v)
        case Neq => CompileEquality(codec, col, "!=", v)
        case In => CompileMembership(codec, col, false, ListOf(v))
        case NotIn => CompileMembership(codec, col, true, ListOf(v))
        case HasItem => Err(UnsupportedContains(c.attribute))
        case LacksItem => Err(UnsupportedContains(c.attribute))
        case OtherOp(name) => Err(UnknownOperator(name))
        case _ => CompileOrdering(codec, col, c.op, v)
  }

  function CompileEquality(
    codec: Codec, col: ColumnRef, sym: string, v: Option<Json>): (r: Result<Emitted, PolicySqlError>)
    ensures r.Ok? ==> col.params <= r.value.params
  {
    match BindScalar(codec, col.ct, v, col.params)
    case Err(m) => Err(m)
    case Ok(em) => Ok(Emitted(col.toks + [Op(sym)] + em.toks, em.params))
  }

  function CompileMembership(
    codec: Codec, col: ColumnRef, negate: bool, values: seq<Json>): (r: Result<Emitted, PolicySqlError>)
    ensures r.Ok? ==> col.params <= r.value.params
  {
    if |values| == 0 then Ok(Emitted([if negate then KTrue else KFalse], col.params))
    else match BindScalars(codec, col.ct, values, col.params)
      case Err(m) => Err(m)
      case Ok((phs, qs)) => Ok(Emitted(col.toks + InTest(negate) + (Join(phs, [Comma]) + [RP]), qs))
  }

  function CompileCondition(
    codec: Codec, c: Condition, ctx: Context, ps: seq<Bind>): (r: Result<Emitted, PolicySqlError>)
    ensures r.Ok? ==> ps <= r.value.params
    decreases c, 1
  {
    match c
    case All(cs) =>
      if |cs| == 0 then Ok(Emitted([KTrue], ps))
      else (match CompileConditions(codec, cs, ctx, ps)
        case Err(m) => Err(m)
        case Ok((texts, qs)) => Ok(Emitted(Parens(Join(texts, [KAnd])), qs)))
    case Any(cs) =>
      if |cs| == 0 then Ok(Emitted([KFalse], ps))
      else (match CompileConditions(codec, cs, ctx, ps)
        case Err(m) => Err(m)
        case Ok((texts, qs)) => Ok(Emitted(Parens(Join(texts, [KOr])), qs)))
    case Leaf(_, _, _) => CompileLeaf(codec, c, ctx, ps)
  }

  function CompileConditions(
    codec: Codec, cs: seq<Condition>, ctx: Context,
    ps: seq<Bind>): (r: Result<(seq<seq<Tok>>, seq<Bind>), PolicySqlError>)
    ensures r.Ok? ==> ps <= r.value.1 && |r.value.0| == |cs|
    decreases cs, 0
  {
    if |cs| == 0 then Ok(([], ps))
    else match CompileCondition(codec, cs[0], ctx, ps)
      case Err(m) => Err(m)
      case Ok(em) =>
        match CompileConditions(codec, cs[1..], ctx, em.params)
        case Err(m) => Err(m)
        case Ok((texts, qs)) => Ok(([em.toks] + texts, qs))
  }

  /** A row without a condition contributes the constant `true`. */
  function RowCondition(row: PolicyRow): Condition {
    match row.condition { case Some(c) => c case None => All([]) }
  }

  function ConditionsOf(rows: seq<PolicyRow>): (cs: seq<Condition>)
    ensures |cs| == |rows|
  {
    seq(|rows|, i requires 0 <= i < |rows| => RowCondition(rows[i]))
  }

  function Gated(rows: seq<PolicyRow>, ctx: Context, effect: Effect): seq<PolicyRow> {
    Keep(rows, row => RoleGate(row, ctx) && row.effect == effect)
  }

  /** The WHERE fragment, or None for "no restriction". */
  function RecordPolicyWhere(
    codec: Codec, rows: seq<PolicyRow>, ctx: Context, ps: seq<Bind>): (r: Result<Option<Emitted>, PolicySqlError>)
    ensures r.Ok? && r.value.Some? ==> ps <= r.value.value.params
  {
    if |rows| == 0 || ctx.IsAdmin() then Ok(None)
    else
      var allows, denies := Gated(rows, ctx, Allowing), Gated(rows, ctx, Denying);
      if |allows| == 0 then Ok(Some(Emitted([KFalse], ps)))
      else match CompileConditions(codec, ConditionsOf(allows), ctx, ps)
        case Err(m) => Err(m)
        case Ok((allowTexts, qs)) =>
          var allowSql := Parens(Join(allowTexts, [KOr]));
          if |denies| == 0 then Ok(Some(Emitted(allowSql, qs)))
          else match CompileConditions(codec, ConditionsOf(denies), ctx, qs)
            case Err(m) => Err(m)
            case Ok((denyTexts, rs)) =>
              Ok(Some(Emitted(Parens(allowSql + [KAnd] + ([KNot] + Parens(Join(denyTexts, [KOr])))), rs)))
  }

  // ---------------------------------------------------------------- the emitters, pushing as they go

  method BindScalarAt(
    codec: Codec, ct: ColType, v: Option<Json>, params: ParamBuilder)
      returns (r: Result<seq<Tok>, PolicySqlError>)
    modifies params
    ensures match BindScalar(codec, ct, v, old(params.params))
            case Err(m) => r == Err(m) && params.params == old(params.params)
            case Ok(em) => r == Ok(em.toks) && params.params == em.params
  {
    if ct == ColUuid {
      var u := UuidText(codec, v);
      if u.None? { return Err(NotAUuid); }
      var ph := params.Push(UuidBind(u.value));
      return Ok([ph]);
    }
    var t := ScalarText(v);
    if t.None? { return Err(NotAScalar); }
    var ph := params.Push(TextBind(t.value));
    return Ok(if ct == ColTimestamptz then [ph, CastTo("timestamptz")] else [ph]);
  }

  /** One placeholder per value of an `in` or `notIn` list. */
  method BindEach(
    codec: Codec, ct: ColType, values: seq<Json>, params: ParamBuilder)
      returns (r: Result<seq<seq<Tok>>, PolicySqlError>)
    modifies params
    ensures match BindScalars(codec, ct, values, old(params.params))
            case Err(m) => r == Err(m) && old(params.params) <= params.params
            case Ok((phs, qs)) => r == Ok(phs) && params.params == qs
  {
    hide BindScalar;
    var phs: seq<seq<Tok>> := [];
    ghost var ps0 := params.params;
    assert values[0..] == values;
    PrependNone(BindScalars(codec, ct, values, ps0));
    var i := 0;
    while i < |values|
      invariant 0 <= i <= |values|
      invariant ps0 <= params.params
      invariant BindScalars(codec, ct, values, ps0) == Prepend(phs, BindScalars(codec, ct, values[i..], params.params))
    {
      assert values[i..][1..] == values[i + 1..];
      ghost var done := phs;
      var ph := BindScalarAt(codec, ct, Some(values[i]), params);
      if ph.Err? { return Err(ph.error); }
      phs := phs + [ph.value];
      PrependOne(done, ph.value, BindScalars(codec, ct, values[i + 1..], params.params));
      i := i + 1;
    }
    assert values[|values|..] == [] && phs + [] == phs;
    r := Ok(phs);
  }

  method FieldExpressionAt(name: string, params: ParamBuilder) returns (r: Result<(seq<Tok>, ColType), PolicySqlError>)
    modifies params
    ensures match FieldExpression(name, old(params.params))
            case Err(m) => r == Err(m) && params.params == old(params.params)
            case Ok(col) => r == Ok((col.toks, col.ct)) && params.params == col.params
  {
    var i := 0;
    while i < |name|
      invariant 0 <= i <= |name|
      invariant '.' !in name[..i]
    {
      if name[i] == '.' { return Err(CrossRecordCondition(name)); }
      i := i + 1;
    }
    var mapped := MappedColumn(name);
    if mapped.Some? { return Ok(([Word(mapped.value.0)], mapped.value.1)); }
    var ph := params.Push(TextBind(name));
    return Ok(([Word("jsonb_extract_path_text"), LP] + (Join([[Word("data")], [ph]], [Comma]) + [RP]), ColText));
  }

  method CompileOrderingAt(codec: Codec, toks: seq<Tok>, ct: ColType, op: Op, v: Option<Json>, params: ParamBuilder)
    returns (r: Result<seq<Tok>, PolicySqlError>)
    modifies params
    ensures match CompileOrdering(codec, ColumnRef(toks, ct, old(params.params)), op, v)
            case Err(m) => r == Err(m) && old(params.params) <= params.params
            case Ok(em) => r == Ok(em.toks) && params.params == em.params
  {
    if ct == ColUuid { return Err(UuidOrdering); }
    if ct == ColText && DecodesAsNumber(codec, v) {
      var t := ScalarText(v);
      if t.None? { return Err(NotAScalar); }
      var ph := params.Push(TextBind(t.value));
      return Ok([LP] + toks + [RP] + [CastTo("numeric")] + [Op(OrderSymbol(op))] + [ph, CastTo("numeric")]);
    }
    var rhs := BindScalarAt(codec, ct, v, params);
    if rhs.Err? { return Err(rhs.error); }
    return Ok(toks + [Op(OrderSymbol(op))] + rhs.value);
  }

  method LeafToSQL(
    codec: Codec, c: Condition, ctx: Context, params: ParamBuilder)
      returns (r: Result<seq<Tok>, PolicySqlError>)
    requires c.Leaf?
    modifies params
    ensures match CompileLeaf(codec, c, ctx, old(params.params))
            case Err(m) => r == Err(m) && old(params.params) <= params.params
            case Ok(em) => r == Ok(em.toks) && params.params == em.params
  {
    hide BindScalar, BindScalars, FieldExpression, CompileOrdering, Holds;
    if IsContextAttribute(c.attribute) {
      var passed := EvaluateCondition(codec, c, JNull, ctx);
      return Ok([if passed then KTrue else KFalse]);
    }
    if WORKFLOW_PREFIX <= c.attribute { return Err(WorkflowAttribute); }
    var col := FieldExpressionAt(c.attribute, params);
    if col.Err? { return Err(col.error); }
    var (toks, ct) := col.value;
    var v := Expected(c.value, ctx);
    match c.op {
      case Eq =>
        var ph := BindScalarAt(codec, ct, v, params);
        if ph.Err? { return Err(ph.error); }
        return Ok(toks + [Op("=")] + ph.value);
      case Neq =>
        var ph := BindScalarAt(codec, ct, v, params);
        if ph.Err? { return Err(ph.error); }
        return Ok(toks + [Op("!=")] + ph.value);
      case HasItem => return Err(UnsupportedContains(c.attribute));
      case LacksItem => return Err(UnsupportedContains(c.attribute));
      case OtherOp(name) => return Err(UnknownOperator(name));
      case _ =>
    }
    if c.op == In || c.op == NotIn {
      var values := ListOf(v);
      if |values| == 0 { return Ok([if c.op == NotIn then KTrue else KFalse]); }
      var phs := BindEach(codec, ct, values, params);
      if phs.Err? { return Err(phs.error); }
      return Ok(toks + InTest(c.op == NotIn) + (Join(phs.value, [Comma]) + [RP]));
    }
    r := CompileOrderingAt(codec, toks, ct, c.op, v, params);
  }

  method ConditionToSQL(
    codec: Codec, c: Condition, ctx: Context, params: ParamBuilder)
      returns (r: Result<seq<Tok>, PolicySqlError>)
    modifies params
    ensures match CompileCondition(codec, c, ctx, old(params.params))
            case Err(m) => r == Err(m) && old(params.params) <= params.params
            case Ok(em) => r == Ok(em.toks) && params.params == em.params
    decreases c, 1
  {
    hide CompileLeaf, CompileConditions;
    match c
    case All(cs) =>
      if |cs| == 0 { return Ok([KTrue]); }
      var clauses := ConditionsToSQL(codec, cs, ctx, params);
      r := match clauses { case Err(m) => Err(m) case Ok(ts) => Ok([LP] + Join(ts, [KAnd]) + [RP]) };
    case Any(cs) =>
      if |cs| == 0 { return Ok([KFalse]); }
      var clauses := ConditionsToSQL(codec, cs, ctx, params);
      r := match clauses { case Err(m) => Err(m) case Ok(ts) => Ok([LP] + Join(ts, [KOr]) + [RP]) };
    case Leaf(_, _, _) =>
      r := LeafToSQL(codec, c, ctx, params);
  }

  /** The loop over the parts of a group, or over the conditions of the policy rows; the first error stops it. */
  method ConditionsToSQL(
    codec: Codec, cs: seq<Condition>, ctx: Context, params: ParamBuilder)
      returns (r: Result<seq<seq<Tok>>, PolicySqlError>)
    modifies params
    ensures match CompileConditions(codec, cs, ctx, old(params.params))
            case Err(m) => r == Err(m) && old(params.params) <= params.params
            case Ok((texts, qs)) => r == Ok(texts) && params.params == qs
    decreases cs, 0
  {
    hide CompileCondition;
    var clauses: seq<seq<Tok>> := [];
    ghost var ps0 := params.params;
    assert cs[0..] == cs;
    PrependNone(CompileConditions(codec, cs, ctx, ps0));
    var i := 0;
    while i < |cs|
      invariant 0 <= i <= |cs|
      invariant ps0 <= params.params
      invariant CompileConditions(codec, cs, ctx, ps0)
                == Prepend(clauses, CompileConditions(codec, cs[i..], ctx, params.params))
    {
      assert cs[i..][1..] == cs[i + 1..];
      ghost var done := clauses;
      var s := ConditionToSQL(codec, cs[i], ctx, params);
      if s.Err? { return Err(s.error); }
      clauses := clauses + [s.value];
      PrependOne(done, s.value, CompileConditions(codec, cs[i + 1..], ctx, params.params));
      i := i + 1;
    }
    assert cs[|cs|..] == [] && clauses + [] == clauses;
    r := Ok(clauses);
  }

  /** The rows of one effect whose role gate the caller passes, in row order. */
  method GatedRows(rows: seq<PolicyRow>, ctx: Context, effect: Effect) returns (out: seq<PolicyRow>)
    ensures out == Gated(rows, ctx, effect)
  {
    out := [];
    var i := 0;
    while i < |rows|
      invariant 0 <= i <= |rows|
      invariant out == Gated(rows[..i], ctx, effect)
    {
      KeepStep(rows, i, row => RoleGate(row, ctx) && row.effect == effect);
      var open := RoleGatePassed(rows[i].roles, rows[i].hasRoles, ctx.roles);
      if open && rows[i].effect == effect { out := out + [rows[i]]; }
      i := i + 1;
    }
    assert rows[..|rows|] == rows;
  }

  method RecordPolicyWhereClause(codec: Codec, rows: seq<PolicyRow>, ctx: Context, params: ParamBuilder)
    returns (r: Result<Option<seq<Tok>>, PolicySqlError>)
    modifies params
    ensures match RecordPolicyWhere(codec, rows, ctx, old(params.params))
            case Err(m) => r == Err(m) && old(params.params) <= params.params
            case Ok(None) => r == Ok(None) && params.params == old(params.params)
            case Ok(Some(em)) => r == Ok(Some(em.toks)) && params.params == em.params
  {
    hide CompileConditions, Gated;
    if |rows| == 0 || ctx.IsAdmin() { return Ok(None); }
    var allowRows := GatedRows(rows, ctx, Allowing);
    var denyRows := GatedRows(rows, ctx, Denying);
    if |allowRows| == 0 { return Ok(Some([KFalse])); }
    var allowClauses := ConditionsToSQL(codec, ConditionsOf(allowRows), ctx, params);
    if allowClauses.Err? { return Err(allowClauses.error); }
    var allowSql := [LP] + Join(allowClauses.value, [KOr]) + [RP];
    if |denyRows| == 0 { return Ok(Some(allowSql)); }
    var denyClauses := ConditionsToSQL(codec, ConditionsOf(denyRows), ctx, params);
    if denyClauses.Err? { return Err(denyClauses.error); }
    var denySql := [LP] + Join(denyClauses.value, [KOr]) + [RP];
    return Ok(Some([LP] + (allowSql + [KAnd] + ([KNot] + denySql)) + [RP]));
  }
}
