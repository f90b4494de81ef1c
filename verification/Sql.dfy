/** The fragment of SQL the query planner emits: tokens, a reader that groups them by SQL's operator
    precedence, and three-valued evaluation of what was read. */
module Sql {
  import opened Prelude
  import opened Json

  // ---------------------------------------------------------------- three-valued logic

  datatype Tri = True3 | False3 | Unknown

  function And3(a: Tri, b: Tri): Tri {
    if a == False3 || b == False3 then False3
    else if a == True3 && b == True3 then True3
    else Unknown
  }

  function Or3(a: Tri, b: Tri): Tri {
    if a == True3 || b == True3 then True3
    else if a == False3 && b == False3 then False3
    else Unknown
  }

  function Not3(a: Tri): Tri {
    match a
    case True3 => False3
    case False3 => True3
    case Unknown => Unknown
  }

  function Negated(negate: bool, t: Tri): Tri { if negate then Not3(t) else t }

  function Of(b: bool): Tri { if b then True3 else False3 }

  function All3(ts: seq<Tri>): Tri {
    if |ts| == 0 then True3 else And3(ts[0], All3(ts[1..]))
  }

  function Any3(ts: seq<Tri>): Tri {
    if |ts| == 0 then False3 else Or3(ts[0], Any3(ts[1..]))
  }

  // ---------------------------------------------------------------- bound parameters

  datatype Bind = TextBind(text: string) | UuidBind(uuid: string)

  // ---------------------------------------------------------------- tokens and syntax trees

  datatype Tok =
    | LP | RP | Comma
    | KAnd | KOr | KNot | KTrue | KFalse | KIs | KNull | KIn | KIlike
    | Op(sym: string)
    | Word(name: string)
    | Quoted(ident: string)
    | StrLit(lit: string)
    | Dollar(n: nat)
    | CastTo(ty: string)

  datatype Expr =
    | Column(name: string)
    | Param(n: nat)
    | Lit(b: bool)
    | Str(s: string)
    | Call(f: string, args: seq<Expr>)
    | Cast(e: Expr, ty: string)
    | Bin(sym: string, l: Expr, r: Expr)
    | IsNull(e: Expr, negate: bool)
    | InList(e: Expr, items: seq<Expr>, negate: bool)
    | Ilike(l: Expr, r: Expr, negate: bool)
    | Not(e: Expr)
    | And(l: Expr, r: Expr)
    | Or(l: Expr, r: Expr)

  // ---------------------------------------------------------------- reading tokens by precedence

  /** What a reader found and the position after it. */
  datatype Read<+T> = Read(tree: T, next: nat) | Fail

  predicate Has(ts: seq<Tok>, i: nat, t: Tok) { i < |ts| && ts[i] == t }

  /** OR binds loosest, then AND, then NOT, then one comparison, then casts. Runs of AND and of OR are
      grouped to the right; both connectives are associative in three-valued logic. */
  function ReadOr(ts: seq<Tok>, i: nat): (r: Read<Expr>)
    ensures r.Read? ==> i < r.next <= |ts|
    decreases |ts| - i, 5
  {
    match ReadAnd(ts, i)
    case Fail => Fail
    case Read(l, j) =>
      if Has(ts, j, KOr) then
        (match ReadOr(ts, j + 1) case Fail => Fail case Read(r, k) => Read(Or(l, r), k))
      else Read(l, j)
  }

  function ReadAnd(ts: seq<Tok>, i: nat): (r: Read<Expr>)
    ensures r.Read? ==> i < r.next <= |ts|
    decreases |ts| - i, 4
  {
    match ReadNot(ts, i)
    case Fail => Fail
    case Read(l, j) =>
      if Has(ts, j, KAnd) then
        (match ReadAnd(ts, j + 1) case Fail => Fail case Read(r, k) => Read(And(l, r), k))
      else Read(l, j)
  }

  function ReadNot(ts: seq<Tok>, i: nat): (r: Read<Expr>)
    ensures r.Read? ==> i < r.next <= |ts|
    decreases |ts| - i, 3
  {
    if Has(ts, i, KNot) then
      (match ReadNot(ts, i + 1) case Fail => Fail case Read(e, j) => Read(Not(e), j))
    else ReadPredicate(ts, i)
  }

  /** An operand, followed by at most one comparison, IS [NOT] NULL, [NOT] IN or [NOT] ILIKE. */
  function ReadPredicate(ts: seq<Tok>, i: nat): (r: Read<Expr>)
    ensures r.Read? ==> i < r.next <= |ts|
    decreases |ts| - i, 2
  {
    match ReadOperand(ts, i)
    case Fail => Fail
    case Read(l, j) =>
      if Has(ts, j, KIs) && Has(ts, j + 1, KNull) then Read(IsNull(l, false), j + 2)
      else if Has(ts, j, KIs) && Has(ts, j + 1, KNot) && Has(ts, j + 2, KNull) then Read(IsNull(l, true), j + 3)
      else if j < |ts| && ts[j].Op? then
        (match ReadOperand(ts, j + 1) case Fail => Fail case Read(r, k) => Read(Bin(ts[j].sym, l, r), k))
      else if Has(ts, j, KIlike) then
        (match ReadOperand(ts, j + 1) case Fail => Fail case Read(r, k) => Read(Ilike(l, r, false), k))
      else if Has(ts, j, KNot) && Has(ts, j + 1, KIlike) then
        (match ReadOperand(ts, j + 2) case Fail => Fail case Read(r, k) => Read(Ilike(l, r, true), k))
      else if Has(ts, j, KIn) && Has(ts, j + 1, LP) then
        (match ReadList(ts, j + 2) case Fail => Fail case Read(es, k) => Read(InList(l, es, false), k))
      else if Has(ts, j, KNot) && Has(ts, j + 1, KIn) && Has(ts, j + 2, LP) then
        (match ReadList(ts, j + 3) case Fail => Fail case Read(es, k) => Read(InList(l, es, true), k))
      else Read(l, j)
  }

  function ReadOperand(ts: seq<Tok>, i: nat): (r: Read<Expr>)
    ensures r.Read? ==> i < r.next <= |ts|
    decreases |ts| - i, 1
  {
    match ReadPrimary(ts, i)
    case Fail => Fail
    case Read(e, j) => ReadCasts(ts, j, e)
  }

  function ReadCasts(ts: seq<Tok>, i: nat, e: Expr): (r: Read<Expr>)
    requires i <= |ts|
    ensures r.Read? && i <= r.next <= |ts|
    decreases |ts| - i, 0
  {
    if i < |ts| && ts[i].CastTo? then ReadCasts(ts, i + 1, Cast(e, ts[i].ty)) else Read(e, i)
  }

  function ReadPrimary(ts: seq<Tok>, i: nat): (r: Read<Expr>)
    ensures r.Read? ==> i < r.next <= |ts|
    decreases |ts| - i, 0
  {
    if i >= |ts| then Fail
    else match ts[i]
      case LP =>
        (match ReadOr(ts, i + 1)
         case Fail => Fail
         case Read(e, j) => if Has(ts, j, RP) then Read(e, j + 1) else Fail)
      case Word(w) =>
        if Has(ts, i + 1, LP) then
          (match ReadList(ts, i + 2) case Fail => Fail case Read(es, k) => Read(Call(w, es), k))
        else Read(Column(w), i + 1)
      case Quoted(w) => Read(Column(w), i + 1)
      case Dollar(n) => Read(Param(n), i + 1)
      case KTrue => Read(Lit(true), i + 1)
      case KFalse => Read(Lit(false), i + 1)
      case StrLit(s) => Read(Str(s), i + 1)
      case _ => Fail
  }

  /** A non-empty comma list up to and including its closing parenthesis. */
  function ReadList(ts: seq<Tok>, i: nat): (r: Read<seq<Expr>>)
    ensures r.Read? ==> i < r.next <= |ts|
    decreases |ts| - i, 6
  {
    match ReadOr(ts, i)
    case Fail => Fail
    case Read(e, j) =>
      if Has(ts, j, RP) then Read([e], j + 1)
      else if Has(ts, j, Comma) then
        (match ReadList(ts, j + 1) case Fail => Fail case Read(es, k) => Read([e] + es, k))
      else Fail
  }

  /** A complete WHERE clause: every token is used. */
  function ReadWhere(ts: seq<Tok>): Option<Expr> {
    match ReadOr(ts, 0)
    case Fail => None
    case Read(e, j) => if j == |ts| then Some(e) else None
  }

  // ---------------------------------------------------------------- evaluation

  datatype Value = Null | Bool(b: bool) | Scalar(s: string)

  /** One table row: its real columns and its `data` object. */
  datatype Row = Row(cols: map<string, Value>, data: Record)

  /** What the database supplies: casts, the order of values, ILIKE's case folding, the text of a nested
      JSON value, and any other operator or function. */
  datatype Db = Db(
    cast: (string, Value) -> Value,
    less: (Value, Value) -> bool,
    fold: char -> char,
    nested: Json -> string,
    other: (string, seq<Value>) -> Value)

  function ColumnOf(row: Row, name: string): Value {
    if name in row.cols then row.cols[name] else Null
  }

  /** `jsonb_extract_path_text(data, key)`. */
  function JsonText(db: Db, j: Json): Value {
    match j
    case JNull => Null
    case JBool(b) => Scalar(if b then "true" else "false")
    case JNum(t) => Scalar(t)
    case JStr(s) => Scalar(s)
    case _ => Scalar(db.nested(j))
  }

  function BindOf(ps: seq<Bind>, n: nat): Value {
    if 1 <= n <= |ps| then
      match ps[n - 1] { case TextBind(t) => Scalar(t) case UuidBind(u) => Scalar(u) }
    else Null
  }

  function TriOf(v: Value): Tri {
    match v { case Bool(b) => Of(b) case _ => Unknown }
  }

  function FromTri(t: Tri): Value {
    match t { case True3 => Bool(true) case False3 => Bool(false) case Unknown => Null }
  }

  function CastValue(db: Db, ty: string, v: Value): Value {
    if v == Null then Null else db.cast(ty, v)
  }

  /** The comparison operators; each is unknown as soon as one side is NULL. */
  function Compare(db: Db, sym: string, a: Value, b: Value): Tri {
    if a == Null || b == Null then Unknown
    else if sym == "=" then Of(a == b)
    else if sym == "!=" then Of(a != b)
    else if sym == "<" then Of(db.less(a, b))
    else if sym == ">" then Of(db.less(b, a))
    else if sym == "<=" then Of(db.less(a, b) || a == b)
    else if sym == ">=" then Of(db.less(b, a) || a == b)
    else TriOf(db.other(sym, [a, b]))
  }

  function Fold(db: Db, s: string): string {
    if |s| == 0 then "" else [db.fold(s[0])] + Fold(db, s[1..])
  }

  /** LIKE with backslash as the escape character. */
  predicate Like(text: string, pat: string)
    decreases |pat|, |text|
  {
    if |pat| == 0 then |text| == 0
    else if pat[0] == '%' then Like(text, pat[1..]) || (|text| > 0 && Like(text[1..], pat))
    else if pat[0] == '_' then |text| > 0 && Like(text[1..], pat[1..])
    else if pat[0] == '\\' && |pat| > 1 then |text| > 0 && text[0] == pat[1] && Like(text[1..], pat[2..])
    else |text| > 0 && text[0] == pat[0] && Like(text[1..], pat[1..])
  }

  function IlikeValue(db: Db, a: Value, p: Value): Tri {
    if a.Scalar? && p.Scalar? then Of(Like(Fold(db, a.s), Fold(db, p.s))) else Unknown
  }

  /** `v IN (vs)` is the disjunction of the equalities. */
  function InValues(db: Db, v: Value, vs: seq<Value>): Tri {
    if |vs| == 0 then False3 else Or3(Compare(db, "=", v, vs[0]), InValues(db, v, vs[1..]))
  }

  function Eval(e: Expr, db: Db, row: Row, ps: seq<Bind>): Value
    decreases e, 1
  {
    match e
    case Column(c) => ColumnOf(row, c)
    case Param(n) => BindOf(ps, n)
    case Lit(b) => Bool(b)
    case Str(s) => Scalar(s)
    case Call(f, args) =>
      if f == "jsonb_extract_path_text" && |args| == 2 && args[0] == Column("data") then
        (match Eval(args[1], db, row, ps)
         case Scalar(k) => JsonText(db, Lookup(row.data, k))
         case _ => Null)
      else db.other(f, EvalSeq(args, db, row, ps))
    case Cast(a, ty) => CastValue(db, ty, Eval(a, db, row, ps))
    case Bin(sym, l, r) => FromTri(Compare(db, sym, Eval(l, db, row, ps), Eval(r, db, row, ps)))
    case IsNull(a, neg) => Bool((Eval(a, db, row, ps) == Null) != neg)
    case InList(a, items, neg) =>
      var t := InValues(db, Eval(a, db, row, ps), EvalSeq(items, db, row, ps));
      FromTri(if neg then Not3(t) else t)
    case Ilike(l, r, neg) =>
      var t := IlikeValue(db, Eval(l, db, row, ps), Eval(r, db, row, ps));
      FromTri(if neg then Not3(t) else t)
    case Not(a) => FromTri(Not3(TriOf(Eval(a, db, row, ps))))
    case And(l, r) => FromTri(And3(TriOf(Eval(l, db, row, ps)), TriOf(Eval(r, db, row, ps))))
    case Or(l, r) => FromTri(Or3(TriOf(Eval(l, db, row, ps)), TriOf(Eval(r, db, row, ps))))
  }

  function EvalSeq(es: seq<Expr>, db: Db, row: Row, ps: seq<Bind>): (vs: seq<Value>)
    ensures |vs| == |es|
    decreases es, 0
  {
    if |es| == 0 then [] else [Eval(es[0], db, row, ps)] + EvalSeq(es[1..], db, row, ps)
  }

  /** The truth value a condition has on a row. */
  function Truth(e: Expr, db: Db, row: Row, ps: seq<Bind>): Tri { TriOf(Eval(e, db, row, ps)) }
}
