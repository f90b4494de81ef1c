/** The parsed JQL query language. */
module Jql {
  import opened Prelude

  datatype JqlOp = JEq | JNe | JGt | JGte | JLt | JLte | JContains | JNotContains

  datatype JqlValue = JText(s: string) | JFlag(b: bool)

  datatype Jql =
    | JCompare(field: string, op: JqlOp, value: JqlValue)
    | JIn(field: string, negate: bool, values: seq<JqlValue>)
    | JIsEmpty(field: string, negate: bool)
    | JAnd(parts: seq<Jql>)
    | JOr(parts: seq<Jql>)
    | JNot(inner: Jql)

  datatype JqlOrder = JqlOrder(field: string, descending: bool)

  datatype Query = Query(expr: Option<Jql>, order: Option<JqlOrder>)

  /** Every way a query is refused, by the tokenizer, the parser or the code generator. */
  datatype JqlError =
    | TooLong
    | StrayBang
    | UnterminatedString
    | UnexpectedChar(c: char)
    | ExpectedValue
    | ExpectedListStart
    | ExpectedListEnd
    | ExpectedField
    | ExpectedIn
    | ExpectedEmpty
    | ExpectedOperator(field: string)
    | ExpectedClose
    | ExpectedBy
    | TrailingInput
    | UnknownField(field: string)
    | OperatorNotSupported(field: string)
    | NeedsText(field: string)
    | EmptyList(field: string)
    | NotSortable(field: string)

  /** What the parser can build: connectives join at least two parts and IN lists hold a value. */
  predicate WellFormed(e: Jql)
    decreases e, 1
  {
    match e
    case JCompare(_, _, _) => true
    case JIn(_, _, values) => |values| >= 1
    case JIsEmpty(_, _) => true
    case JAnd(parts) => |parts| >= 2 && AllWellFormed(parts)
    case JOr(parts) => |parts| >= 2 && AllWellFormed(parts)
    case JNot(inner) => WellFormed(inner)
  }

  predicate AllWellFormed(parts: seq<Jql>)
    decreases parts, 0
  {
    |parts| == 0 || (WellFormed(parts[0]) && AllWellFormed(parts[1..]))
  }

  lemma {:induction false} AllWellFormedAppend(parts: seq<Jql>, e: Jql)
    requires AllWellFormed(parts) && WellFormed(e)
    ensures AllWellFormed(parts + [e])
    decreases |parts|
  {
    if |parts| > 0 {
      AllWellFormedAppend(parts[1..], e);
      assert (parts + [e])[1..] == parts[1..] + [e];
    } else {
      assert parts + [e] == [e];
    }
  }
}
