/** The recursive-descent JQL parser: OR loosest, then AND, then NOT, then a comparison. The functions give
    the grammar from a position on; the class moves one cursor over the tokens and returns exactly what
    they do, without ever reading past the end marker. */
module JqlParser {
  import opened Prelude
  import opened Jql
  import opened JqlLexer

  /** A non-empty token list closed by the end marker. */
  predicate Closed(ts: seq<Token>) { |ts| > 0 && ts[|ts| - 1] == TEof }

  function Next(ts: seq<Token>, pos: nat): (next: nat)
    requires pos < |ts|
    ensures next < |ts|
  {
    if pos + 1 < |ts| then pos + 1 else pos
  }

  function CompareOp(t: Token): Option<JqlOp> {
    match t
    case TEq => Some(JEq)
    case TNe => Some(JNe)
    case TGt => Some(JGt)
    case TGte => Some(JGte)
    case TLt => Some(JLt)
    case TLte => Some(JLte)
    case TTilde => Some(JContains)
    case TNotTilde => Some(JNotContains)
    case _ => None
  }

  // ---------------------------------------------------------------- the grammar, position by position

  function ParseValue(ts: seq<Token>, pos: nat): (r: Result<(JqlValue, nat), JqlError>)
    requires Closed(ts) && pos < |ts|
    ensures r.Ok? ==> pos < r.value.1 < |ts|
  {
    match ts[pos]
    case TStr(s) => Ok((JText(s), Next(ts, pos)))
    case TNumber(s) => Ok((JText(s), Next(ts, pos)))
    case KwTrue => Ok((JFlag(true), Next(ts, pos)))
    case KwFalse => Ok((JFlag(false), Next(ts, pos)))
    case _ => Err(ExpectedValue)
  }

  /** The values after the first one, up to and including the closing parenthesis. */
  function ParseValues(ts: seq<Token>, pos: nat, values: seq<JqlValue>): (r: Result<(seq<JqlValue>, nat), JqlError>)
    requires Closed(ts) && pos < |ts|
    ensures r.Ok? ==> pos < r.value.1 < |ts| && |r.value.0| >= |values|
    decreases |ts| - pos
  {
    if ts[pos] == TComma then
      (match ParseValue(ts, pos + 1)
       case Err(m) => Err(m)
       case Ok((v, p)) => ParseValues(ts, p, values + [v]))
    else if ts[pos] == TRParen then Ok((values, Next(ts, pos)))
    else Err(ExpectedListEnd)
  }

  function ParseValueList(ts: seq<Token>, pos: nat): (r: Result<(seq<JqlValue>, nat), JqlError>)
    requires Closed(ts) && pos < |ts|
    ensures r.Ok? ==> pos < r.value.1 < |ts| && |r.value.0| >= 1
  {
    if ts[pos] != TLParen then Err(ExpectedListStart)
    else match ParseValue(ts, pos + 1)
      case Err(m) => Err(m)
      case Ok((v, p)) => ParseValues(ts, p, [v])
  }

  function ParseOperand(ts: seq<Token>, q: nat, field: string, op: JqlOp): (r: Result<(Jql, nat), JqlError>)
    requires Closed(ts) && q < |ts|
    ensures r.Ok? ==> q < r.value.1 < |ts|
  {
    match ParseValue(ts, q) case Err(m) => Err(m) case Ok((v, k)) => Ok((JCompare(field, op, v), k))
  }

  function ParseIn(ts: seq<Token>, q: nat, field: string, negate: bool): (r: Result<(Jql, nat), JqlError>)
    requires Closed(ts) && q < |ts|
    ensures r.Ok? ==> q < r.value.1 < |ts| && WellFormed(r.value.0)
  {
    match ParseValueList(ts, q) case Err(m) => Err(m) case Ok((vs, k)) => Ok((JIn(field, negate, vs), k))
  }

  function ParseIsEmpty(ts: seq<Token>, q: nat, field: string): (r: Result<(Jql, nat), JqlError>)
    requires Closed(ts) && q < |ts|
    ensures r.Ok? ==> q < r.value.1 < |ts|
  {
    var negate := ts[q] == KwNot;
    var e := if negate then q + 1 else q;
    if ts[e] != KwEmpty then Err(ExpectedEmpty) else Ok((JIsEmpty(field, negate), e + 1))
  }

  /** What follows a field name that stands before position `p`. */
  function ParseOperator(ts: seq<Token>, p: nat, field: string): (r: Result<(Jql, nat), JqlError>)
    requires Closed(ts) && p < |ts|
    ensures r.Ok? ==> p < r.value.1 < |ts|
  {
    var t, q := ts[p], Next(ts, p);
    if CompareOp(t).Some? then ParseOperand(ts, q, field, CompareOp(t).value)
    else if t == KwIn then ParseIn(ts, q, field, false)
    else if t == KwNot then
      if ts[q] != KwIn then Err(ExpectedIn) else ParseIn(ts, q + 1, field, true)
    else if t == KwIs then ParseIsEmpty(ts, q, field)
    else Err(ExpectedOperator(field))
  }

  function ParseComparison(ts: seq<Token>, pos: nat): (r: Result<(Jql, nat), JqlError>)
    requires Closed(ts) && pos < |ts|
    ensures r.Ok? ==> pos < r.value.1 < |ts|
  {
    if !ts[pos].TIdent? then Err(ExpectedField) else ParseOperator(ts, pos + 1, ts[pos].text)
  }

  function ParseOr(ts: seq<Token>, pos: nat): (r: Result<(Jql, nat), JqlError>)
    requires Closed(ts) && pos < |ts|
    ensures r.Ok? ==> pos < r.value.1 < |ts|
    decreases |ts| - pos, 4
  {
    match ParseAnd(ts, pos)
    case Err(m) => Err(m)
    case Ok((first, p)) =>
      match OrRest(ts, p, [first])
      case Err(m) => Err(m)
      case Ok((parts, k)) => Ok((if |parts| == 1 then parts[0] else JOr(parts), k))
  }

  function OrRest(ts: seq<Token>, pos: nat, parts: seq<Jql>): (r: Result<(seq<Jql>, nat), JqlError>)
    requires Closed(ts) && pos < |ts|
    ensures r.Ok? ==> pos <= r.value.1 < |ts| && |r.value.0| >= |parts|
    decreases |ts| - pos, 0
  {
    if ts[pos] == KwOr then
      (match ParseAnd(ts, pos + 1)
       case Err(m) => Err(m)
       case Ok((next, p)) => OrRest(ts, p, parts + [next]))
    else Ok((parts, pos))
  }

  function ParseAnd(ts: seq<Token>, pos: nat): (r: Result<(Jql, nat), JqlError>)
    requires Closed(ts) && pos < |ts|
    ensures r.Ok? ==> pos < r.value.1 < |ts|
    decreases |ts| - pos, 3
  {
    match ParseNot(ts, pos)
    case Err(m) => Err(m)
    case Ok((first, p)) =>
      match AndRest(ts, p, [first])
      case Err(m) => Err(m)
      case Ok((parts, k)) => Ok((if |parts| == 1 then parts[0] else JAnd(parts), k))
  }

  function AndRest(ts: seq<Token>, pos: nat, parts: seq<Jql>): (r: Result<(seq<Jql>, nat), JqlError>)
    requires Closed(ts) && pos < |ts|
    ensures r.Ok? ==> pos <= r.value.1 < |ts| && |r.value.0| >= |parts|
    decreases |ts| - pos, 0
  {
    if ts[pos] == KwAnd then
      (match ParseNot(ts, pos + 1)
       case Err(m) => Err(m)
       case Ok((next, p)) => AndRest(ts, p, parts + [next]))
    else Ok((parts, pos))
  }

  function ParseNot(ts: seq<Token>, pos: nat): (r: Result<(Jql, nat), JqlError>)
    requires Closed(ts) && pos < |ts|
    ensures r.Ok? ==> pos < r.value.1 < |ts|
    decreases |ts| - pos, 2
  {
    if ts[pos] == KwNot then
      (match ParseNot(ts, pos + 1) case Err(m) => Err(m) case Ok((inner, p)) => Ok((JNot(inner), p)))
    else ParsePrimary(ts, pos)
  }

  function ParsePrimary(ts: seq<Token>, pos: nat): (r: Result<(Jql, nat), JqlError>)
    requires Closed(ts) && pos < |ts|
    ensures r.Ok? ==> pos < r.value.1 < |ts|
    decreases |ts| - pos, 1
  {
    if ts[pos] == TLParen then
      (match ParseOr(ts, pos + 1)
       case Err(m) => Err(m)
       case Ok((e, p)) => if ts[p] == TRParen then Ok((e, p + 1)) else Err(ExpectedClose))
    else ParseComparison(ts, pos)
  }

  function ParseOrder(ts: seq<Token>, pos: nat): (r: Result<(Option<JqlOrder>, nat), JqlError>)
    requires Closed(ts) && pos < |ts|
    ensures r.Ok? ==> pos <= r.value.1 < |ts|
  {
    if ts[pos] != KwOrder then Ok((None, pos))
    else if ts[pos + 1] != KwBy then Err(ExpectedBy)
    else if !ts[pos + 2].TIdent? then Err(ExpectedField)
    else
      var p := pos + 3;
      if ts[p] == KwDesc then Ok((Some(JqlOrder(ts[pos + 2].text, true)), p + 1))
      else if ts[p] == KwAsc then Ok((Some(JqlOrder(ts[pos + 2].text, false)), p + 1))
      else Ok((Some(JqlOrder(ts[pos + 2].text, false)), p))
  }

  function ParseExpr(ts: seq<Token>): (r: Result<(Option<Jql>, nat), JqlError>)
    requires Closed(ts)
    ensures r.Ok? ==> r.value.1 < |ts|
  {
    if ts[0] == KwOrder || ts[0] == TEof then Ok((None, 0))
    else match ParseOr(ts, 0) { case Err(m) => Err(m) case Ok((e, p)) => Ok((Some(e), p)) }
  }

  function Parse(ts: seq<Token>): Result<Query, JqlError>
    requires Closed(ts)
  {
    match ParseExpr(ts)
    case Err(m) => Err(m)
    case Ok((e, p)) =>
      match ParseOrder(ts, p)
      case Err(m) => Err(m)
      case Ok((o, q)) => if ts[q] != TEof then Err(TrailingInput) else Ok(Query(e, o))
  }

  // ---------------------------------------------------------------- only well-formed trees come out

  lemma {:induction false} ParsedOrIsWellFormed(ts: seq<Token>, pos: nat)
    requires Closed(ts) && pos < |ts| && ParseOr(ts, pos).Ok?
    ensures WellFormed(ParseOr(ts, pos).value.0)
    decreases |ts| - pos, 4
  {
    ParsedAndIsWellFormed(ts, pos);
    var (first, p) := ParseAnd(ts, pos).value;
    assert AllWellFormed([first]) by { assert [first][1..] == []; }
    OrRestIsWellFormed(ts, p, [first]);
  }

  lemma {:induction false} OrRestIsWellFormed(ts: seq<Token>, pos: nat, parts: seq<Jql>)
    requires Closed(ts) && pos < |ts| && AllWellFormed(parts) && OrRest(ts, pos, parts).Ok?
    ensures AllWellFormed(OrRest(ts, pos, parts).value.0)
    decreases |ts| - pos, 0
  {
    if ts[pos] == KwOr {
      ParsedAndIsWellFormed(ts, pos + 1);
      var (next, p) := ParseAnd(ts, pos + 1).value;
      AllWellFormedAppend(parts, next);
      OrRestIsWellFormed(ts, p, parts + [next]);
    }
  }

  lemma {:induction false} ParsedAndIsWellFormed(ts: seq<Token>, pos: nat)
    requires Closed(ts) && pos < |ts| && ParseAnd(ts, pos).Ok?
    ensures WellFormed(ParseAnd(ts, pos).value.0)
    decreases |ts| - pos, 3
  {
    ParsedNotIsWellFormed(ts, pos);
    var (first, p) := ParseNot(ts, pos).value;
    assert AllWellFormed([first]) by { assert [first][1..] == []; }
    AndRestIsWellFormed(ts, p, [first]);
  }

  lemma {:induction false} AndRestIsWellFormed(ts: seq<Token>, pos: nat, parts: seq<Jql>)
    requires Closed(ts) && pos < |ts| && AllWellFormed(parts) && AndRest(ts, pos, parts).Ok?
    ensures AllWellFormed(AndRest(ts, pos, parts).value.0)
    decreases |ts| - pos, 0
  {
    if ts[pos] == KwAnd {
      ParsedNotIsWellFormed(ts, pos + 1);
      var (next, p) := ParseNot(ts, pos + 1).value;
      AllWellFormedAppend(parts, next);
      AndRestIsWellFormed(ts, p, parts + [next]);
    }
  }

  lemma {:induction false} ParsedNotIsWellFormed(ts: seq<Token>, pos: nat)
    requires Closed(ts) && pos < |ts| && ParseNot(ts, pos).Ok?
    ensures WellFormed(ParseNot(ts, pos).value.0)
    decreases |ts| - pos, 2
  {
    if ts[pos] == KwNot { ParsedNotIsWellFormed(ts, pos + 1); } else { ParsedPrimaryIsWellFormed(ts, pos); }
  }

  lemma {:induction false} ParsedPrimaryIsWellFormed(ts: seq<Token>, pos: nat)
    requires Closed(ts) && pos < |ts| && ParsePrimary(ts, pos).Ok?
    ensures WellFormed(ParsePrimary(ts, pos).value.0)
    decreases |ts| - pos, 1
  {
    if ts[pos] == TLParen { ParsedOrIsWellFormed(ts, pos + 1); }
  }

  /** Whatever the text, a query the parser accepts is a tree the code generator can render. */
  lemma ParsedQueryIsWellFormed(ts: seq<Token>)
    requires Closed(ts) && Parse(ts).Ok?
    ensures Parse(ts).value.expr.Some? ==> WellFormed(Parse(ts).value.expr.value)
  {
    if ParseExpr(ts).value.0.Some? { ParsedOrIsWellFormed(ts, 0); }
  }

  // ---------------------------------------------------------------- the parser and its cursor

  class Parser {
    const tokens: seq<Token>
    var pos: nat

    ghost predicate Valid() reads this { Closed(tokens) && pos < |tokens| }

    constructor (tokens: seq<Token>)
      requires Closed(tokens)
      ensures Valid() && pos == 0 && this.tokens == tokens
    {
      this.tokens := tokens;
      pos := 0;
    }

    function Peek(): Token
      requires Valid()
      reads this
    {
      tokens[pos]
    }

    /** Takes a token; on the end marker the cursor stays where it is. */
    method Advance() returns (t: Token)
      requires Valid()
      modifies this
      ensures Valid()
      ensures t == tokens[old(pos)] && pos == Next(tokens, old(pos))
    {
      t := tokens[pos];
      if pos + 1 < |tokens| { pos := pos + 1; }
    }

    method Eat(kind: Token) returns (eaten: bool)
      requires Valid()
      modifies this
      ensures Valid()
      ensures eaten == (tokens[old(pos)] == kind)
      ensures pos == if eaten then Next(tokens, old(pos)) else old(pos)
    {
      if Peek() == kind {
        var _ := Advance();
        return true;
      }
      return false;
    }

    method ParseValueAt() returns (r: Result<JqlValue, JqlError>)
      requires Valid()
      modifies this
      ensures Valid()
      ensures match ParseValue(tokens, old(pos))
              case Err(m) => r == Err(m)
              case Ok((v, p)) => r == Ok(v) && pos == p
    {
      var t := Advance();
      match t
      case TStr(s) => return Ok(JText(s));
      case TNumber(s) => return Ok(JText(s));
      case KwTrue => return Ok(JFlag(true));
      case KwFalse => return Ok(JFlag(false));
      case _ => return Err(ExpectedValue);
    }

    method ParseValueListAt() returns (r: Result<seq<JqlValue>, JqlError>)
      requires Valid()
      modifies this
      ensures Valid()
      ensures match ParseValueList(tokens, old(pos))
              case Err(m) => r == Err(m)
              case Ok((vs, p)) => r == Ok(vs) && pos == p
    {
      var open := Eat(TLParen);
      if !open { return Err(ExpectedListStart); }
      var first := ParseValueAt();
      if first.Err? { return Err(first.error); }
      var values := [first.value];
      ghost var start := pos;
      var more := Eat(TComma);
      ghost var before := start;
      while more
        invariant Valid() && before < |tokens|
        invariant more == (tokens[before] == TComma)
        invariant pos == if more then Next(tokens, before) else before
        invariant ParseValues(tokens, start, [first.value]) == ParseValues(tokens, before, values)
        decreases |tokens| - before
      {
        var v := ParseValueAt();
        if v.Err? { return Err(v.error); }
        values := values + [v.value];
        before := pos;
        more := Eat(TComma);
      }
      var close := Eat(TRParen);
      if !close { return Err(ExpectedListEnd); }
      return Ok(values);
    }

    method ParseComparisonAt() returns (r: Result<Jql, JqlError>)
      requires Valid()
      modifies this
      ensures Valid()
      ensures match ParseComparison(tokens, old(pos))
              case Err(m) => r == Err(m)
              case Ok((e, p)) => r == Ok(e) && pos == p
    {
      var f := Advance();
      if !f.TIdent? { return Err(ExpectedField); }
      var t := Advance();
      if CompareOp(t).Some? {
        var v := ParseValueAt();
        return match v { case Err(m) => Err(m) case Ok(x) => Ok(JCompare(f.text, CompareOp(t).value, x)) };
      }
      if t == KwIn {
        var vs := ParseValueListAt();
        return match vs { case Err(m) => Err(m) case Ok(xs) => Ok(JIn(f.text, false, xs)) };
      }
      if t == KwNot {
        var isIn := Eat(KwIn);
        if !isIn { return Err(ExpectedIn); }
        var vs := ParseValueListAt();
        return match vs { case Err(m) => Err(m) case Ok(xs) => Ok(JIn(f.text, true, xs)) };
      }
      if t == KwIs {
        var negate := Eat(KwNot);
        var empty := Eat(KwEmpty);
        if !empty { return Err(ExpectedEmpty); }
        return Ok(JIsEmpty(f.text, negate));
      }
      return Err(ExpectedOperator(f.text));
    }

    method ParseOrAt() returns (r: Result<Jql, JqlError>)
      requires Valid()
      modifies this
      ensures Valid()
      ensures match ParseOr(tokens, old(pos))
              case Err(m) => r == Err(m)
              case Ok((e, p)) => r == Ok(e) && pos == p
      decreases |tokens| - pos, 4
    {
      ghost var entry := pos;
      var first := ParseAndAt();
      if first.Err? { return Err(first.error); }
      var parts := [first.value];
      ghost var start := pos;
      ghost var before := pos;
      var more := Eat(KwOr);
      while more
        invariant Valid() && entry < before < |tokens|
        invariant more == (tokens[before] == KwOr)
        invariant pos == if more then Next(tokens, before) else before
        invariant OrRest(tokens, start, [first.value]) == OrRest(tokens, before, parts)
        invariant |parts| >= 1
        decreases |tokens| - before
      {
        var next := ParseAndAt();
        if next.Err? { return Err(next.error); }
        parts := parts + [next.value];
        before := pos;
        more := Eat(KwOr);
      }
      if |parts| == 1 { return Ok(parts[0]); }
      return Ok(JOr(parts));
    }

    method ParseAndAt() returns (r: Result<Jql, JqlError>)
      requires Valid()
      modifies this
      ensures Valid()
      ensures match ParseAnd(tokens, old(pos))
              case Err(m) => r == Err(m)
              case Ok((e, p)) => r == Ok(e) && pos == p
      decreases |tokens| - pos, 3
    {
      ghost var entry := pos;
      var first := ParseNotAt();
      if first.Err? { return Err(first.error); }
      var parts := [first.value];
      ghost var start := pos;
      ghost var before := pos;
      var more := Eat(KwAnd);
      while more
        invariant Valid() && entry < before < |tokens|
        invariant more == (tokens[before] == KwAnd)
        invariant pos == if more then Next(tokens, before) else before
        invariant AndRest(tokens, start, [first.value]) == AndRest(tokens, before, parts)
        invariant |parts| >= 1
        decreases |tokens| - before
      {
        var next := ParseNotAt();
        if next.Err? { return Err(next.error); }
        parts := parts + [next.value];
        before := pos;
        more := Eat(KwAnd);
      }
      if |parts| == 1 { return Ok(parts[0]); }
      return Ok(JAnd(parts));
    }

    method ParseNotAt() returns (r: Result<Jql, JqlError>)
      requires Valid()
      modifies this
      ensures Valid()
      ensures match ParseNot(tokens, old(pos))
              case Err(m) => r == Err(m)
              case Ok((e, p)) => r == Ok(e) && pos == p
      decreases |tokens| - pos, 2
    {
      ghost var entry := pos;
      var isNot := Eat(KwNot);
      if isNot {
        assert pos > entry;
        var inner := ParseNotAt();
        return match inner { case Err(m) => Err(m) case Ok(e) => Ok(JNot(e)) };
      }
      r := ParsePrimaryAt();
    }

    method ParsePrimaryAt() returns (r: Result<Jql, JqlError>)
      requires Valid()
      modifies this
      ensures Valid()
      ensures match ParsePrimary(tokens, old(pos))
              case Err(m) => r == Err(m)
              case Ok((e, p)) => r == Ok(e) && pos == p
      decreases |tokens| - pos, 1
    {
      ghost var entry := pos;
      var open := Eat(TLParen);
      if open {
        assert pos > entry;
        var e := ParseOrAt();
        if e.Err? { return Err(e.error); }
        var close := Eat(TRParen);
        if !close { return Err(ExpectedClose); }
        return Ok(e.value);
      }
      r := ParseComparisonAt();
    }

    /** The optional ORDER BY clause at the end of a query. */
    method ParseOrderAt() returns (r: Result<Option<JqlOrder>, JqlError>)
      requires Valid()
      modifies this
      ensures Valid()
      ensures match ParseOrder(tokens, old(pos))
              case Err(m) => r == Err(m)
              case Ok((o, p)) => r == Ok(o) && pos == p
    {
      var hasOrder := Eat(KwOrder);
      if !hasOrder { return Ok(None); }
      var hasBy := Eat(KwBy);
      if !hasBy { return Err(ExpectedBy); }
      var f := Advance();
      if !f.TIdent? { return Err(ExpectedField); }
      var descending := Eat(KwDesc);
      if !descending { var _ := Eat(KwAsc); }
      return Ok(Some(JqlOrder(f.text, descending)));
    }

    method ParseQuery() returns (r: Result<Query, JqlError>)
      requires Valid() && pos == 0
      modifies this
      ensures Valid()
      ensures r == Parse(tokens)
    {
      hide ParseOr, ParseOrder;
      var expr: Option<Jql> := None;
      if Peek() != KwOrder && Peek() != TEof {
        var e := ParseOrAt();
        if e.Err? { return Err(e.error); }
        expr := Some(e.value);
      }
      var order := ParseOrderAt();
      if order.Err? { return Err(order.error); }
      if Peek() != TEof { return Err(TrailingInput); }
      return Ok(Query(expr, order.value));
    }
  }
}
