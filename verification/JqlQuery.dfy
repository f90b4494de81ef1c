/** ParseAndCompileJQL: from the query text of a request to a WHERE fragment and a sort. */
module JqlQuery {
  import opened Prelude
  import opened Metadata
  import opened Sql
  import opened SqlReading
  import opened SqlBuilder
  import opened Substring
  import opened Jql
  import L = JqlLexer
  import P = JqlParser
  import C = JqlCodegen

  lemma {:induction false} LexIsClosed(s: string, i: nat)
    requires i <= |s| && L.LexFrom(s, i).Ok?
    ensures P.Closed(L.LexFrom(s, i).value)
    decreases |s| - i
  {
    if i < |s| {
      if L.IsSpace(s[i]) {
        LexIsClosed(s, i + 1);
      } else {
        LexIsClosed(s, L.TokenAt(s, i).value.1);
      }
    }
  }

  /** The query a text denotes, or why it is refused. */
  function QueryOf(text: string): Result<Query, JqlError> {
    match L.Lex(text)
    case Err(m) => Err(m)
    case Ok(ts) => LexIsClosed(text, 0); P.Parse(ts)
  }

  lemma QueryIsWellFormed(text: string)
    requires QueryOf(text).Ok? && QueryOf(text).value.expr.Some?
    ensures WellFormed(QueryOf(text).value.expr.value)
  {
    LexIsClosed(text, 0);
    P.ParsedQueryIsWellFormed(L.Lex(text).value);
  }

  /** No identifier the tokenizer makes starts with a minus sign. */
  ghost predicate NoMinus(ts: seq<L.Token>) { forall k :: 0 <= k < |ts| && ts[k].TIdent? ==> !("-" <= ts[k].text) }

  lemma {:induction false} LexedWords(s: string, i: nat)
    requires i <= |s| && L.LexFrom(s, i).Ok?
    ensures NoMinus(L.LexFrom(s, i).value)
    decreases |s| - i
  {
    if i < |s| {
      if L.IsSpace(s[i]) {
        LexedWords(s, i + 1);
      } else {
        var (t, j) := L.TokenAt(s, i).value;
        LexedWords(s, j);
        if t.TIdent? { WordStart(s, i); }
      }
    }
  }

  lemma WordStart(s: string, i: nat)
    requires i < |s| && L.TokenAt(s, i).Ok? && L.TokenAt(s, i).value.0.TIdent?
    ensures !("-" <= L.TokenAt(s, i).value.0.text)
  {
    hide L.WordToken, L.WordEnd, L.StringFrom, L.NumberEnd;
    var word := s[i..L.WordEnd(s, i + 1)];
    IdentIsItsWord(word);
    assert |word| > 0 && word[0] == s[i] && s[i] != '-';
  }

  lemma IdentIsItsWord(word: string)
    ensures L.WordToken(word).TIdent? ==> L.WordToken(word).text == word
  {
  }

  /** A compiled ORDER BY names a sortable field, and its name does not start with a minus sign. */
  lemma OrderIsPlain(text: string, entity: Entity, ps: seq<Bind>)
    requires CompileText(text, entity, ps).Ok? && CompileText(text, entity, ps).value.order.Some?
    ensures var o := CompileText(text, entity, ps).value.order.value;
            IsJqlSortable(o.field, entity) && !("-" <= o.field)
  {
    hide C.Compile, P.ParseExpr, L.LexFrom;
    LexIsClosed(text, 0);
    LexedWords(text, 0);
    var ts := L.Lex(text).value;
    var p := P.ParseExpr(ts).value.1;
    assert P.ParseOrder(ts, p).value.0 == CompileText(text, entity, ps).value.order;
    assert ts[p + 2].TIdent?;
  }

  predicate IsJqlSortable(field: string, entity: Entity) {
    field == "createdAt" || field == "updatedAt"
    || exists i :: 0 <= i < |entity.fields| && entity.fields[i].name == field && entity.fields[i].sortable
  }

  datatype Compiled = Compiled(where: Option<seq<Tok>>, order: Option<JqlOrder>, params: seq<Bind>)

  function CompileQuery(q: Query, entity: Entity, ps: seq<Bind>): (r: Result<Compiled, JqlError>)
    ensures r.Ok? ==> ps <= r.value.params
  {
    var where: Result<(Option<seq<Tok>>, seq<Bind>), JqlError> :=
      match q.expr
      case None => Ok((None, ps))
      case Some(e) =>
        (match C.Compile(e, entity, ps) { case Err(m) => Err(m) case Ok(em) => Ok((Some(em.toks), em.params)) });
    match where
    case Err(m) => Err(m)
    case Ok((w, qs)) =>
      if q.order.Some? && !IsJqlSortable(q.order.value.field, entity) then Err(NotSortable(q.order.value.field))
      else Ok(Compiled(w, q.order, qs))
  }

  function CompileText(text: string, entity: Entity, ps: seq<Bind>): (r: Result<Compiled, JqlError>)
    ensures r.Ok? ==> ps <= r.value.params
  {
    match QueryOf(text) { case Err(m) => Err(m) case Ok(q) => CompileQuery(q, entity, ps) }
  }

  method CheckSortable(field: string, entity: Entity) returns (ok: bool)
    ensures ok == IsJqlSortable(field, entity)
  {
    if field == "createdAt" || field == "updatedAt" { return true; }
    var i := 0;
    while i < |entity.fields|
      invariant 0 <= i <= |entity.fields|
      invariant forall k :: 0 <= k < i ==> !(entity.fields[k].name == field && entity.fields[k].sortable)
    {
      if entity.fields[i].name == field && entity.fields[i].sortable { return true; }
      i := i + 1;
    }
    return false;
  }

  method ParseAndCompileJQL(
    text: string, entity: Entity, params: ParamBuilder)
      returns (r: Result<(Option<seq<Tok>>, Option<JqlOrder>), JqlError>)
    modifies params
    ensures match CompileText(text, entity, old(params.params))
            case Err(m) => r == Err(m) && old(params.params) <= params.params
            case Ok(c) => r == Ok((c.where, c.order)) && params.params == c.params
  {
    hide P.Parse, C.Compile, L.LexFrom;
    var tokens := L.Tokenize(text);
    if tokens.Err? { return Err(tokens.error); }
    var parser := new P.Parser(tokens.value);
    var parsed := parser.ParseQuery();
    if parsed.Err? { return Err(parsed.error); }
    var where: Option<seq<Tok>> := None;
    if parsed.value.expr.Some? {
      var sql := C.CompileJqlExpr(parsed.value.expr.value, entity, params);
      if sql.Err? { return Err(sql.error); }
      where := Some(sql.value);
    }
    var order := parsed.value.order;
    if order.Some? {
      var ok := CheckSortable(order.value.field, entity);
      if !ok { return Err(NotSortable(order.value.field)); }
    }
    return Ok((where, order));
  }

  /** A query without a filter expression selects every row. */
  function QueryTruth(text: string, entity: Entity, db: Db, row: Row): Tri {
    match QueryOf(text)
    case Ok(Query(Some(e), _)) => C.Meaning(e, entity, db, row)
    case _ => True3
  }

  /** The fragment compiled from a request's text is one parenthesised condition with the query's meaning. */
  lemma CompileTextMeans(text: string, entity: Entity, ps: seq<Bind>, db: Db, row: Row, qs: seq<Bind>) returns (e: Expr)
    requires FoldKeepsMeta(db)
    requires CompileText(text, entity, ps).Ok? && CompileText(text, entity, ps).value.where.Some?
    requires CompileText(text, entity, ps).value.params <= qs
    ensures AsPrimary(CompileText(text, entity, ps).value.where.value, e)
    ensures CompileText(text, entity, ps).value.where.value != []
            && CompileText(text, entity, ps).value.where.value[0] == LP
    ensures Truth(e, db, row, qs) == QueryTruth(text, entity, db, row)
  {
    hide C.Compile, C.Meaning, AsPrimary, Eval;
    var q := QueryOf(text).value;
    QueryIsWellFormed(text);
    e := C.CompileMeans(q.expr.value, entity, ps, db, row, qs);
  }
}
