/** Sort expressions and the keyset condition: true exactly for the rows strictly after the cursor. */
module SortKeys {
  import opened Prelude
  import opened Json
  import opened Metadata
  import opened Sql
  import opened SqlReading
  import opened SqlBuilder

  datatype SortCol = SortTimestamptz | SortUuid | SortText

  function SortCast(ct: SortCol): Option<string> {
    match ct
    case SortTimestamptz => Some("timestamptz")
    case SortUuid => Some("uuid")
    case SortText => None
  }

  function SortSuffix(ct: SortCol): seq<Tok> {
    match SortCast(ct) { case Some(ty) => [CastTo(ty)] case None => [] }
  }

  function AsSortType(db: Db, ct: SortCol, v: Value): Value {
    match SortCast(ct) { case Some(ty) => CastValue(db, ty, v) case None => v }
  }

  datatype SortRef = SortRef(toks: seq<Tok>, ct: SortCol, params: seq<Bind>)

  function ColumnType(f: Field): SortCol {
    if f.kind == KindReference || f.kind == KindId then SortUuid else SortText
  }

  function SortExpression(name: string, def: Option<Field>, ps: seq<Bind>): (r: SortRef)
    ensures ps <= r.params
  {
    if name == "createdAt" then SortRef([Word("created_at")], SortTimestamptz, ps)
    else if name == "updatedAt" then SortRef([Word("updated_at")], SortTimestamptz, ps)
    else if def.Some? && HasRealColumn(def.value) then SortRef([Quoted(def.value.name)], ColumnType(def.value), ps)
    else SortRef(JsonPath(|ps| + 1), SortText, ps + [TextBind(name)])
  }

  method SortFieldExpression(
    name: string, def: Option<Field>, params: ParamBuilder)
      returns (toks: seq<Tok>, ct: SortCol)
    modifies params
    ensures SortRef(toks, ct, params.params) == SortExpression(name, def, old(params.params))
  {
    if name == "createdAt" { return [Word("created_at")], SortTimestamptz; }
    if name == "updatedAt" { return [Word("updated_at")], SortTimestamptz; }
    if def.Some? && HasRealColumn(def.value) {
      var col := SortText;
      if def.value.kind == KindReference || def.value.kind == KindId { col := SortUuid; }
      return [Quoted(def.value.name)], col;
    }
    var ph := params.Push(TextBind(name));
    return [Word("jsonb_extract_path_text"), LP] + (Join([[Word("data")], [ph]], [Comma]) + [RP]), SortText;
  }

  /** The stored value a filter or a sort looks at. */
  function KeyValue(name: string, def: Option<Field>, db: Db, row: Row): Value {
    if name == "createdAt" then ColumnOf(row, "created_at")
    else if name == "updatedAt" then ColumnOf(row, "updated_at")
    else if def.Some? && HasRealColumn(def.value) then ColumnOf(row, def.value.name)
    else JsonText(db, Lookup(row.data, name))
  }

  function KeyType(name: string, def: Option<Field>): SortCol {
    if name == "createdAt" || name == "updatedAt" then SortTimestamptz
    else if def.Some? && HasRealColumn(def.value) then ColumnType(def.value)
    else SortText
  }

  /** Keys are compared as times for the two timestamps, as UUIDs for an id or a reference with its own column, and as
      they are otherwise. */
  lemma SortTypes(name: string, def: Option<Field>, ps: seq<Bind>)
    ensures SortExpression(name, def, ps).ct == KeyType(name, def)
    ensures SortCast(KeyType(name, def)) ==
            if name == "createdAt" || name == "updatedAt" then Some("timestamptz")
            else if def.Some? && HasRealColumn(def.value) && def.value.kind in {KindId, KindReference} then Some("uuid")
            else None
  {
  }

  lemma SortExpressionReads(
    name: string, def: Option<Field>, ps: seq<Bind>, db: Db, row: Row, qs: seq<Bind>)
      returns (e: Expr)
    requires SortExpression(name, def, ps).params <= qs
    ensures var r := SortExpression(name, def, ps);
            AsPrimary(r.toks, e) && r.toks != [] && r.toks[0] != KNot && r.ct == KeyType(name, def)
    ensures Eval(e, db, row, qs) == KeyValue(name, def, db, row)
  {
    if name == "createdAt" {
      ReadAtom(Word("created_at"));
      e := Column("created_at");
    } else if name == "updatedAt" {
      ReadAtom(Word("updated_at"));
      e := Column("updated_at");
    } else if def.Some? && HasRealColumn(def.value) {
      ReadAtom(Quoted(def.value.name));
      e := Column(def.value.name);
    } else {
      JsonPathReads(|ps| + 1);
      JsonPathValue(name, db, row, ps, qs);
      e := Call("jsonb_extract_path_text", [Column("data"), Param(|ps| + 1)]);
    }
  }

  /** A placeholder with the sort type's cast. */
  lemma CastPlaceholderReads(n: nat, ct: SortCol, db: Db, row: Row, qs: seq<Bind>) returns (e: Expr)
    ensures AsOperand([Dollar(n)] + SortSuffix(ct), e)
    ensures Eval(e, db, row, qs) == AsSortType(db, ct, BindOf(qs, n))
  {
    ReadAtom(Dollar(n));
    match SortCast(ct) {
      case Some(ty) =>
        ReadCastTo([Dollar(n)], Param(n), ty);
        e := Cast(Param(n), ty);
      case None =>
        PrimaryIsOperand([Dollar(n)], Param(n));
        assert [Dollar(n)] + SortSuffix(ct) == [Dollar(n)];
        e := Param(n);
    }
  }

  // ---------------------------------------------------------------- the keyset condition as text

  function IdAfter(idPh: Tok): seq<Tok> { [Word("id")] + [Op(">")] + [idPh] }

  function SameKeyAfter(key: seq<Tok>, valuePh: seq<Tok>, idPh: Tok): seq<Tok> {
    Parens(Join([key + [Op("=")] + valuePh, IdAfter(idPh)], [KAnd]))
  }

  /** cursorCondition: four shapes, by direction and by whether the cursor's key is NULL. */
  function CursorCondition(key: seq<Tok>, descending: bool, valuePh: Option<seq<Tok>>, idPh: Tok): seq<Tok> {
    match (descending, valuePh)
    case (false, Some(v)) =>
      Parens(Join([Parens(key + [Op(">")] + v), SameKeyAfter(key, v, idPh), key + NullTest(false)], [KOr]))
    case (true, Some(v)) =>
      Parens(Join([Parens(key + [Op("<")] + v), SameKeyAfter(key, v, idPh)], [KOr]))
    case (false, None) => Parens(Join([key + NullTest(false), IdAfter(idPh)], [KAnd]))
    case (true, None) =>
      Parens(Join([Parens(Join([key + NullTest(false), IdAfter(idPh)], [KAnd])), key + NullTest(true)], [KOr]))
  }

  // ---------------------------------------------------------------- the order of the pages

  /** The database's order of values is a strict total order. */
  ghost predicate StrictOrder(db: Db) {
    && (forall a: Value {:trigger db.less(a, a)} :: !db.less(a, a))
    && (forall a: Value, b: Value, c: Value {:trigger db.less(a, b), db.less(b, c)} ::
          db.less(a, b) && db.less(b, c) ==> db.less(a, c))
    && (forall a: Value, b: Value {:trigger db.less(a, b)} {:trigger db.less(b, a)} ::
          a == b || db.less(a, b) || db.less(b, a))
  }

  /** ASC NULLS LAST and DESC NULLS FIRST: NULL counts as the largest key either way. */
  predicate KeyBefore(db: Db, descending: bool, a: Value, b: Value) {
    if descending then (a == Null && b != Null) || (a != Null && b != Null && db.less(b, a))
    else (a != Null && b == Null) || (a != Null && b != Null && db.less(a, b))
  }

  /** ORDER BY key, id ASC. */
  predicate Precedes(db: Db, descending: bool, k1: Value, id1: Value, k2: Value, id2: Value) {
    KeyBefore(db, descending, k1, k2) || (k1 == k2 && db.less(id1, id2))
  }

  /** The truth value of the keyset condition on a row with key `k` and id `id`. */
  function CursorTruth(db: Db, descending: bool, k: Value, id: Value, cursorKey: Option<Value>, cursorId: Value): Tri {
    var idAfter := Compare(db, ">", id, cursorId);
    match (descending, cursorKey)
    case (false, Some(v)) => Or3(Compare(db, ">", k, v), Or3(And3(Compare(db, "=", k, v), idAfter), Of(k == Null)))
    case (true, Some(v)) => Or3(Compare(db, "<", k, v), And3(Compare(db, "=", k, v), idAfter))
    case (false, None) => And3(Of(k == Null), idAfter)
    case (true, None) => Or3(And3(Of(k == Null), idAfter), Of(k != Null))
  }

  /** The keyset condition is TRUE exactly for the rows strictly after the cursor's position. */
  lemma CursorTruthIsAfter(db: Db, descending: bool, k: Value, id: Value, cursorKey: Value, cursorId: Value)
    requires id != Null && cursorId != Null
    ensures CursorTruth(db, descending, k, id, if cursorKey == Null then None else Some(cursorKey), cursorId) == True3
            <==> Precedes(db, descending, cursorKey, cursorId, k, id)
  {
  }

  // ---------------------------------------------------------------- reading the keyset condition

  lemma PairReads(p: seq<Tok>, l: Expr, q: seq<Tok>, r: Expr)
    requires AsNegation(p, l) && AsNegation(q, r)
    ensures AsPrimary(Parens(Join([p, q], [KAnd])), And(l, r))
    ensures AsPrimary(Parens(Join([p, q], [KOr])), Or(l, r))
  {
    hide AsPrimary, AsNegation, Join;
    assert AllNegations([p, q], [l, r]);
    AndReads([p, q], [l, r]);
    OrReads([p, q], [l, r]);
    Trees(l, r);
  }

  lemma Trees(l: Expr, r: Expr)
    ensures AndTree([l, r]) == And(l, r) && OrTree([l, r]) == Or(l, r)
  {
    assert [l, r][1..] == [r];
  }

  lemma TripleReads(p: seq<Tok>, a: Expr, q: seq<Tok>, b: Expr, r: seq<Tok>, c: Expr)
    requires AsNegation(p, a) && AsNegation(q, b) && AsNegation(r, c)
    ensures AsPrimary(Parens(Join([p, q, r], [KOr])), Or(a, Or(b, c)))
  {
    hide AsPrimary, AsNegation, Join;
    assert AllNegations([p, q, r], [a, b, c]);
    OrReads([p, q, r], [a, b, c]);
    assert [a, b, c][1..] == [b, c];
    Trees(b, c);
  }

  lemma ComparisonReads(key: seq<Tok>, k: Expr, sym: string, v: seq<Tok>, ve: Expr)
    requires AsPrimary(key, k) && AsOperand(v, ve) && key != [] && key[0] != KNot
    ensures AsNegation(key + [Op(sym)] + v, Bin(sym, k, ve))
    ensures AsNegation(Parens(key + [Op(sym)] + v), Bin(sym, k, ve))
  {
    hide AsPrimary, AsOperand, AsPredicate, AsNegation, AsCondition;
    var p := key + [Op(sym)] + v;
    PrimaryIsOperand(key, k);
    ReadBinary(key, k, sym, v, ve);
    PredicateIsNegation(p, Bin(sym, k, ve));
    ParenthesisedReads(p, Bin(sym, k, ve));
    PrimaryIsNegation(Parens(p), Bin(sym, k, ve));
  }

  lemma NullTestReads(key: seq<Tok>, k: Expr, negate: bool)
    requires AsPrimary(key, k) && key != [] && key[0] != KNot
    ensures AsNegation(key + NullTest(negate), IsNull(k, negate))
  {
    hide AsPrimary, AsOperand, AsPredicate, AsNegation;
    PrimaryIsOperand(key, k);
    ReadIsNull(key, k, negate);
    PredicateIsNegation(key + NullTest(negate), IsNull(k, negate));
  }

  lemma IdAfterReads(n: nat)
    ensures AsNegation(IdAfter(Dollar(n)), Bin(">", Column("id"), Param(n)))
  {
    ReadAtom(Word("id"));
    ReadAtom(Dollar(n));
    PrimaryIsOperand([Dollar(n)], Param(n));
    ComparisonReads([Word("id")], Column("id"), ">", [Dollar(n)], Param(n));
  }

  lemma SameKeyReads(key: seq<Tok>, k: Expr, v: seq<Tok>, ve: Expr, n: nat)
    requires AsPrimary(key, k) && AsOperand(v, ve) && key != [] && key[0] != KNot
    ensures AsNegation(SameKeyAfter(key, v, Dollar(n)), And(Bin("=", k, ve), Bin(">", Column("id"), Param(n))))
  {
    hide AsPrimary, AsOperand, AsNegation, Join;
    ComparisonReads(key, k, "=", v, ve);
    IdAfterReads(n);
    PairReads(key + [Op("=")] + v, Bin("=", k, ve), IdAfter(Dollar(n)), Bin(">", Column("id"), Param(n)));
    PrimaryIsNegation(SameKeyAfter(key, v, Dollar(n)), And(Bin("=", k, ve), Bin(">", Column("id"), Param(n))));
  }

  function CursorExpr(k: Expr, descending: bool, v: Option<Expr>, n: nat): Expr {
    var idAfter := Bin(">", Column("id"), Param(n));
    match (descending, v)
    case (false, Some(ve)) => Or(Bin(">", k, ve), Or(And(Bin("=", k, ve), idAfter), IsNull(k, false)))
    case (true, Some(ve)) => Or(Bin("<", k, ve), And(Bin("=", k, ve), idAfter))
    case (false, None) => And(IsNull(k, false), idAfter)
    case (true, None) => Or(And(IsNull(k, false), idAfter), IsNull(k, true))
  }

  lemma CursorAfterValueReads(key: seq<Tok>, k: Expr, descending: bool, v: seq<Tok>, ve: Expr, n: nat)
    requires AsPrimary(key, k) && key != [] && key[0] != KNot && AsOperand(v, ve)
    ensures AsPrimary(CursorCondition(key, descending, Some(v), Dollar(n)), CursorExpr(k, descending, Some(ve), n))
  {
    hide AsPrimary, AsOperand, AsNegation, Join;
    SameKeyReads(key, k, v, ve, n);
    var same := And(Bin("=", k, ve), Bin(">", Column("id"), Param(n)));
    if descending {
      ComparisonReads(key, k, "<", v, ve);
      PairReads(Parens(key + [Op("<")] + v), Bin("<", k, ve), SameKeyAfter(key, v, Dollar(n)), same);
    } else {
      ComparisonReads(key, k, ">", v, ve);
      NullTestReads(key, k, false);
      TripleReads(Parens(key + [Op(">")] + v), Bin(">", k, ve), SameKeyAfter(key, v, Dollar(n)), same,
                  key + NullTest(false), IsNull(k, false));
    }
  }

  lemma CursorAfterNullReads(key: seq<Tok>, k: Expr, descending: bool, n: nat)
    requires AsPrimary(key, k) && key != [] && key[0] != KNot
    ensures AsPrimary(CursorCondition(key, descending, None, Dollar(n)), CursorExpr(k, descending, None, n))
  {
    hide AsPrimary, AsOperand, AsNegation, Join;
    var idAfter := Bin(">", Column("id"), Param(n));
    NullTestReads(key, k, false);
    IdAfterReads(n);
    PairReads(key + NullTest(false), IsNull(k, false), IdAfter(Dollar(n)), idAfter);
    if descending {
      var block := Parens(Join([key + NullTest(false), IdAfter(Dollar(n))], [KAnd]));
      PrimaryIsNegation(block, And(IsNull(k, false), idAfter));
      NullTestReads(key, k, true);
      PairReads(block, And(IsNull(k, false), idAfter), key + NullTest(true), IsNull(k, true));
    }
  }

  lemma TruthOfAndExpr(a: Expr, b: Expr, db: Db, row: Row, qs: seq<Bind>)
    ensures Truth(And(a, b), db, row, qs) == And3(Truth(a, db, row, qs), Truth(b, db, row, qs))
  {
  }

  lemma TruthOfOrExpr(a: Expr, b: Expr, db: Db, row: Row, qs: seq<Bind>)
    ensures Truth(Or(a, b), db, row, qs) == Or3(Truth(a, db, row, qs), Truth(b, db, row, qs))
  {
  }

  lemma TruthOfIsNull(a: Expr, negate: bool, db: Db, row: Row, qs: seq<Bind>)
    ensures Truth(IsNull(a, negate), db, row, qs) == Of((Eval(a, db, row, qs) == Null) != negate)
  {
  }

  lemma CursorExprTruth(k: Expr, descending: bool, v: Option<Expr>, n: nat, db: Db, row: Row, qs: seq<Bind>)
    ensures Truth(CursorExpr(k, descending, v, n), db, row, qs)
            == CursorTruth(db, descending, Eval(k, db, row, qs), ColumnOf(row, "id"),
                           match v { case Some(ve) => Some(Eval(ve, db, row, qs)) case None => None }, BindOf(qs, n))
  {
    hide Eval, Truth, Compare;
    var idAfter := Bin(">", Column("id"), Param(n));
    Leaves(n, db, row, qs);
    TruthOfBin(">", Column("id"), Param(n), db, row, qs);
    TruthOfIsNull(k, false, db, row, qs);
    TruthOfIsNull(k, true, db, row, qs);
    match v
    case Some(ve) =>
      var same := And(Bin("=", k, ve), idAfter);
      TruthOfBin("=", k, ve, db, row, qs);
      TruthOfBin(">", k, ve, db, row, qs);
      TruthOfBin("<", k, ve, db, row, qs);
      TruthOfAndExpr(Bin("=", k, ve), idAfter, db, row, qs);
      TruthOfOrExpr(same, IsNull(k, false), db, row, qs);
      TruthOfOrExpr(Bin(">", k, ve), Or(same, IsNull(k, false)), db, row, qs);
      TruthOfOrExpr(Bin("<", k, ve), same, db, row, qs);
    case None =>
      TruthOfAndExpr(IsNull(k, false), idAfter, db, row, qs);
      TruthOfOrExpr(And(IsNull(k, false), idAfter), IsNull(k, true), db, row, qs);
  }

  lemma Leaves(n: nat, db: Db, row: Row, qs: seq<Bind>)
    ensures Eval(Column("id"), db, row, qs) == ColumnOf(row, "id") && Eval(Param(n), db, row, qs) == BindOf(qs, n)
  {
  }
}
