/** Policy conditions and their evaluation: deny overrides allow, and no match means no access. */
module Permission {
  import opened Prelude
  import opened Json
  import opened Ordering

  /** What the platform takes from libraries: the canonical text and the value of a JSON number, whether a
      text is a number, and UUID parsing. */
  datatype Codec = Codec(
    canon: string -> string,
    num: string -> real,
    isNumber: string -> bool,
    uuid: string -> Option<string>)

  datatype Op = Eq | Neq | In | NotIn | Gt | Gte | Lt | Lte | HasItem | LacksItem | OtherOp(name: string)

  datatype PolicyValue = Literal(v: Json) | NoLiteral | FromContext(key: string)

  datatype Condition =
    | Leaf(attribute: string, op: Op, value: PolicyValue)
    | All(conditions: seq<Condition>)
    | Any(conditions: seq<Condition>)

  datatype Effect = Allowing | Denying

  /** One row of the policies table; an empty `field` is SQL NULL. */
  datatype PolicyRow = PolicyRow(
    id: string, tenant: string, entity: string, action: string, field: string, subject: string,
    roles: seq<string>, hasRoles: bool, condition: Option<Condition>, effect: Effect)

  datatype Context = Context(
    tenantId: string, userId: string, roles: seq<string>, hasRoles: bool, functionId: string,
    attributes: Record)
  {
    predicate IsAdmin() { "admin" in roles }

    /** ToValue: one flat object, the context attributes last. */
    function ToValue(): Json {
      JObj(map["tenantId" := JStr(tenantId)]
           + (if userId != "" then map["userId" := JStr(userId)] else map[])
           + (if hasRoles then map["roles" := JArr(Strings(roles))] else map[])
           + (if functionId != "" then map["functionId" := JStr(functionId)] else map[])
           + attributes)
    }
  }

  function Strings(ss: seq<string>): seq<Json> {
    seq(|ss|, i requires 0 <= i < |ss| => JStr(ss[i]))
  }

  // ---------------------------------------------------------------- JSON comparison

  /** Decoding and encoding again: only number texts change. */
  function Canonical(codec: Codec, j: Json): Json {
    match j
    case JNum(t) => JNum(codec.canon(t))
    case JArr(items) => JArr(seq(|items|, i requires 0 <= i < |items| => Canonical(codec, items[i])))
    case JObj(fields) => JObj(map k | k in fields :: Canonical(codec, fields[k]))
    case _ => j
  }

  predicate JsonEqual(codec: Codec, a: Json, b: Json) { Canonical(codec, a) == Canonical(codec, b) }

  /** JSON null decodes into every Go type as that type's zero value. */
  function AsNumber(codec: Codec, j: Json): Option<real> {
    match j { case JNum(t) => Some(codec.num(t)) case JNull => Some(0.0) case _ => None }
  }

  function AsText(j: Json): Option<string> {
    match j { case JStr(s) => Some(s) case JNull => Some("") case _ => None }
  }

  function AsArray(j: Json): Option<seq<Json>> {
    match j { case JArr(items) => Some(items) case JNull => Some([]) case _ => None }
  }

  datatype Comparison = Less | Same | More | Incomparable

  function CompareOrdering(codec: Codec, actual: Json, expected: Json): Comparison {
    match (AsNumber(codec, actual), AsNumber(codec, expected))
    case (Some(a), Some(b)) => if a > b then More else if a < b then Less else Same
    case _ =>
      match (AsText(actual), AsText(expected))
      case (Some(a), Some(b)) => if TextLess(b, a) then More else if TextLess(a, b) then Less else Same
      case _ => Incomparable
  }

  predicate ArrayHas(codec: Codec, items: seq<Json>, v: Json) {
    exists i :: 0 <= i < |items| && JsonEqual(codec, items[i], v)
  }

  predicate MatchOperator(codec: Codec, op: Op, actual: Json, expected: Json) {
    match op
    case Eq => JsonEqual(codec, actual, expected)
    case Neq => !JsonEqual(codec, actual, expected)
    case In => AsArray(expected).Some? && ArrayHas(codec, AsArray(expected).value, actual)
    case NotIn => AsArray(expected).Some? && !ArrayHas(codec, AsArray(expected).value, actual)
    case HasItem => AsArray(actual).Some? && ArrayHas(codec, AsArray(actual).value, expected)
    case LacksItem => AsArray(actual).Some? && !ArrayHas(codec, AsArray(actual).value, expected)
    case Gt => CompareOrdering(codec, actual, expected) == More
    case Gte => CompareOrdering(codec, actual, expected) in {More, Same}
    case Lt => CompareOrdering(codec, actual, expected) == Less
    case Lte => CompareOrdering(codec, actual, expected) in {Less, Same}
    case OtherOp(_) => false
  }

  // ---------------------------------------------------------------- the operators by value

  /** Numbers by their value and texts by their characters; null counts as 0 beside a number or another null and as the
      empty text beside a text. Nothing else has an order. */
  predicate Below(codec: Codec, a: Json, b: Json) {
    match (a, b)
    case (JNum(x), JNum(y)) => codec.num(x) < codec.num(y)
    case (JNum(x), JNull) => codec.num(x) < 0.0
    case (JNull, JNum(y)) => 0.0 < codec.num(y)
    case (JStr(x), JStr(y)) => TextLess(x, y)
    case (JNull, JStr(y)) => y != ""
    case _ => false
  }

  predicate HasOrder(a: Json, b: Json) {
    || ((a.JNum? || a.JNull?) && (b.JNum? || b.JNull?))
    || ((a.JStr? || a.JNull?) && (b.JStr? || b.JNull?))
  }

  /** The four ordering operators on all pairs of values. */
  lemma OrderingByValue(codec: Codec, a: Json, b: Json)
    ensures MatchOperator(codec, Gt, a, b) <==> Below(codec, b, a)
    ensures MatchOperator(codec, Lt, a, b) <==> Below(codec, a, b)
    ensures MatchOperator(codec, Gte, a, b) <==> HasOrder(a, b) && !Below(codec, a, b)
    ensures MatchOperator(codec, Lte, a, b) <==> HasOrder(a, b) && !Below(codec, b, a)
  {
    if a.JStr? && b.JStr? {
      TextLessTotal(a.s, b.s);
      TextLessAsymmetric(a.s, b.s);
    }
  }

  /** Equality, value by value: numbers by their canonical text, arrays item by item, objects field by field. */
  lemma EqualByValue(codec: Codec, a: Json, b: Json)
    ensures MatchOperator(codec, Neq, a, b) <==> !MatchOperator(codec, Eq, a, b)
    ensures MatchOperator(codec, Eq, a, b) <==>
            match (a, b)
            case (JNull, JNull) => true
            case (JBool(x), JBool(y)) => x == y
            case (JNum(x), JNum(y)) => codec.canon(x) == codec.canon(y)
            case (JStr(x), JStr(y)) => x == y
            case (JArr(x), JArr(y)) =>
              |x| == |y| && forall i :: 0 <= i < |x| ==> MatchOperator(codec, Eq, x[i], y[i])
            case (JObj(x), JObj(y)) =>
              x.Keys == y.Keys && forall k :: k in x ==> MatchOperator(codec, Eq, x[k], y[k])
            case _ => false
  {
    if a.JArr? && b.JArr? {
      var p, q := Canonical(codec, a).items, Canonical(codec, b).items;
      assert |p| == |a.items| && |q| == |b.items|;
      assert forall i :: 0 <= i < |p| ==> p[i] == Canonical(codec, a.items[i]);
      assert forall i :: 0 <= i < |q| ==> q[i] == Canonical(codec, b.items[i]);
      assert p == q <==> |p| == |q| && forall i :: 0 <= i < |p| ==> p[i] == q[i];
      assert forall i :: 0 <= i < |p| && i < |q| ==>
               (p[i] == q[i] <==> MatchOperator(codec, Eq, a.items[i], b.items[i]));
    } else if a.JObj? && b.JObj? {
      var p, q := Canonical(codec, a).fields, Canonical(codec, b).fields;
      assert p.Keys == a.fields.Keys && q.Keys == b.fields.Keys;
      assert p == q ==> forall k :: k in p ==> p[k] == q[k];
    }
  }

  /** The list operators: a list holds a value when one of its items is equal to it, null is an empty list, and with
      anything else neither an operator nor its negation matches. */
  lemma ListByValue(codec: Codec, a: Json, b: Json)
    ensures MatchOperator(codec, In, a, b) <==>
            b.JArr? && exists i :: 0 <= i < |b.items| && MatchOperator(codec, Eq, b.items[i], a)
    ensures MatchOperator(codec, NotIn, a, b) <==>
            b.JNull? || (b.JArr? && forall i :: 0 <= i < |b.items| ==> MatchOperator(codec, Neq, b.items[i], a))
    ensures MatchOperator(codec, HasItem, a, b) <==>
            a.JArr? && exists i :: 0 <= i < |a.items| && MatchOperator(codec, Eq, a.items[i], b)
    ensures MatchOperator(codec, LacksItem, a, b) <==>
            a.JNull? || (a.JArr? && forall i :: 0 <= i < |a.items| ==> MatchOperator(codec, Neq, a.items[i], b))
  {
    hide JsonEqual;
  }

  // ---------------------------------------------------------------- attributes and values

  const CONTEXT_PREFIX := "$ctx."
  const WORKFLOW_PREFIX := "$workflow."

  predicate IsContextAttribute(attribute: string) { CONTEXT_PREFIX <= attribute }

  /** strings.Split(s, "."): always at least one segment. */
  function Segments(s: string): (r: seq<string>)
    ensures |r| >= 1
  {
    if |s| == 0 then [""]
    else
      var rest := Segments(s[1..]);
      if s[0] == '.' then [""] + rest else [[s[0]] + rest[0]] + rest[1..]
  }

  function Member(j: Json, key: string): Json {
    match j { case JObj(fields) => Lookup(fields, key) case _ => JNull }
  }

  function Walk(subject: Json, segments: seq<string>): Json
    decreases |segments|
  {
    if |segments| == 0 then subject else Walk(Member(subject, segments[0]), segments[1..])
  }

  lemma WalkFromNull(segments: seq<string>)
    ensures Walk(JNull, segments) == JNull
    decreases |segments|
  {
    if |segments| > 0 { WalkFromNull(segments[1..]); }
  }

  /** resolveAttributePath: it stops with null at the first missing segment. */
  method ResolveAttributePath(subject: Json, attribute: string) returns (r: Json)
    ensures r == Walk(subject, Segments(attribute))
  {
    var segments := Segments(attribute);
    r := subject;
    var i := 0;
    while i < |segments|
      invariant 0 <= i <= |segments|
      invariant Walk(subject, segments) == Walk(r, segments[i..])
    {
      WalkFromNull(segments[i + 1..]);
      assert segments[i..][1..] == segments[i + 1..];
      if !r.JObj? || segments[i] !in r.fields { return JNull; }
      r := r.fields[segments[i]];
      i := i + 1;
    }
  }

  function ResolveAttribute(subject: Json, attribute: string, ctx: Context): Json {
    if IsContextAttribute(attribute) then Walk(ctx.ToValue(), Segments(attribute[|CONTEXT_PREFIX|..]))
    else Walk(subject, Segments(attribute))
  }

  function ResolveValue(value: PolicyValue, ctx: Context): Json {
    match value
    case FromContext(key) => Member(ctx.ToValue(), key)
    case NoLiteral => JNull
    case Literal(v) => v
  }

  /** An attribute that begins with `$ctx.` is read from the context by the rest of its path, any other from the
      subject. */
  lemma AttributeSource(subject: Json, path: string, ctx: Context)
    ensures ResolveAttribute(subject, "$ctx." + path, ctx) == Walk(ctx.ToValue(), Segments(path))
    ensures !("$ctx." <= path) ==> ResolveAttribute(subject, path, ctx) == Walk(subject, Segments(path))
  {
    assert ("$ctx." + path)[|CONTEXT_PREFIX|..] == path;
  }

  /** What the context holds under a key: an attribute of the request first, then the tenant, the user and the function
      if they are given, and the roles as a list of texts. */
  lemma ContextByKey(ctx: Context, key: string)
    ensures var v := ResolveValue(FromContext(key), ctx);
            if key in ctx.attributes then v == ctx.attributes[key]
            else if key == "tenantId" then v == JStr(ctx.tenantId)
            else if key == "userId" then v == if ctx.userId == "" then JNull else JStr(ctx.userId)
            else if key == "functionId" then v == if ctx.functionId == "" then JNull else JStr(ctx.functionId)
            else if key == "roles" && ctx.hasRoles then
              && v.JArr? && |v.items| == |ctx.roles|
              && forall i :: 0 <= i < |ctx.roles| ==> v.items[i] == JStr(ctx.roles[i])
            else v == JNull
  {
    assert "tenantId"[0] == 't' && "userId"[0] == 'u' && "roles"[0] == 'r' && "functionId"[0] == 'f';
  }

  // ---------------------------------------------------------------- conditions

  predicate Holds(codec: Codec, c: Condition, subject: Json, ctx: Context) {
    match c
    case All(cs) => forall i :: 0 <= i < |cs| ==> Holds(codec, cs[i], subject, ctx)
    case Any(cs) => exists i :: 0 <= i < |cs| && Holds(codec, cs[i], subject, ctx)
    case Leaf(attribute, op, value) =>
      MatchOperator(codec, op, ResolveAttribute(subject, attribute, ctx), ResolveValue(value, ctx))
  }

  /** EvaluateCondition, without the text of the failure reason. */
  method EvaluateCondition(codec: Codec, c: Condition, subject: Json, ctx: Context) returns (passed: bool)
    ensures passed == Holds(codec, c, subject, ctx)
    decreases c
  {
    match c
    case All(cs) =>
      var i := 0;
      while i < |cs|
        invariant 0 <= i <= |cs|
        invariant forall k :: 0 <= k < i ==> Holds(codec, cs[k], subject, ctx)
      {
        var inner := EvaluateCondition(codec, cs[i], subject, ctx);
        if !inner { return false; }
        i := i + 1;
      }
      return true;
    case Any(cs) =>
      var i := 0;
      while i < |cs|
        invariant 0 <= i <= |cs|
        invariant forall k :: 0 <= k < i ==> !Holds(codec, cs[k], subject, ctx)
      {
        var inner := EvaluateCondition(codec, cs[i], subject, ctx);
        if inner { return true; }
        i := i + 1;
      }
      return false;
    case Leaf(attribute, op, value) =>
      var actual;
      if IsContextAttribute(attribute) {
        actual := ResolveAttributePath(ctx.ToValue(), attribute[|CONTEXT_PREFIX|..]);
      } else {
        actual := ResolveAttributePath(subject, attribute);
      }
      return MatchOperator(codec, op, actual, ResolveValue(value, ctx));
  }

  // ---------------------------------------------------------------- policy rows

  /** A row without roles is open to everyone. */
  predicate RoleGate(row: PolicyRow, ctx: Context) {
    !row.hasRoles || row.roles == [] || exists r :: r in ctx.roles && r in row.roles
  }

  method RoleGatePassed(policyRoles: seq<string>, hasPolicyRoles: bool, callerRoles: seq<string>) returns (open: bool)
    ensures open == (!hasPolicyRoles || policyRoles == [] || exists r :: r in callerRoles && r in policyRoles)
  {
    if !hasPolicyRoles || |policyRoles| == 0 { return true; }
    var i := 0;
    while i < |callerRoles|
      invariant 0 <= i <= |callerRoles|
      invariant forall k :: 0 <= k < i ==> callerRoles[k] !in policyRoles
    {
      var j := 0;
      while j < |policyRoles|
        invariant 0 <= j <= |policyRoles|
        invariant callerRoles[i] !in policyRoles[..j]
      {
        if callerRoles[i] == policyRoles[j] {
          assert callerRoles[i] in callerRoles && callerRoles[i] in policyRoles;
          return true;
        }
        j := j + 1;
      }
      i := i + 1;
    }
    return false;
  }

  /** The value a row's condition is evaluated against; a missing record falls back to the context. */
  function SubjectOf(row: PolicyRow, ctx: Context, record: Option<Json>): Json {
    if row.subject == "record" && record.Some? then record.value else ctx.ToValue()
  }

  predicate Matches(codec: Codec, row: PolicyRow, ctx: Context, record: Option<Json>) {
    RoleGate(row, ctx) && (row.condition.Some? ==> Holds(codec, row.condition.value, SubjectOf(row, ctx, record), ctx))
  }

  /** A row matches when it names no role or one the caller has, and it has no condition or one that holds: of the
      record for a record policy that is given one, of the context otherwise. */
  lemma MatchesExactly(codec: Codec, row: PolicyRow, ctx: Context, record: Option<Json>)
    ensures Matches(codec, row, ctx, record) <==>
            && (row.hasRoles && |row.roles| > 0 ==>
                  exists i, j :: 0 <= i < |ctx.roles| && 0 <= j < |row.roles| && ctx.roles[i] == row.roles[j])
            && (row.condition.Some? && row.subject == "record" && record.Some? ==>
                  Holds(codec, row.condition.value, record.value, ctx))
            && (row.condition.Some? && !(row.subject == "record" && record.Some?) ==>
                  Holds(codec, row.condition.value, ctx.ToValue(), ctx))
  {
    hide Holds;
    if r :| r in ctx.roles && r in row.roles {
      var i :| 0 <= i < |ctx.roles| && ctx.roles[i] == r;
      var j :| 0 <= j < |row.roles| && row.roles[j] == r;
      assert ctx.roles[i] == row.roles[j];
    }
    if i, j :| 0 <= i < |ctx.roles| && 0 <= j < |row.roles| && ctx.roles[i] == row.roles[j] {
      assert ctx.roles[i] in ctx.roles && ctx.roles[i] in row.roles;
    }
  }

  method EvaluatePolicyRow(codec: Codec, row: PolicyRow, ctx: Context, record: Option<Json>) returns (matched: bool)
    ensures matched == Matches(codec, row, ctx, record)
  {
    var gate := RoleGatePassed(row.roles, row.hasRoles, ctx.roles);
    if !gate { return false; }
    if row.condition.None? { return true; }
    matched := EvaluateCondition(codec, row.condition.value, SubjectOf(row, ctx, record), ctx);
  }

  datatype Verdict = AllowVerdict | DenyVerdict | NoMatch

  /** Deny wins over allow, and nothing matching grants nothing; the order of the rows plays no part. */
  function Decide(deny: bool, allow: bool): Verdict {
    if deny then DenyVerdict else if allow then AllowVerdict else NoMatch
  }

  predicate SomeMatch(codec: Codec, rows: seq<PolicyRow>, effect: Effect, ctx: Context, record: Option<Json>) {
    exists row :: row in rows && row.effect == effect && Matches(codec, row, ctx, record)
  }

  function VerdictOf(codec: Codec, rows: seq<PolicyRow>, ctx: Context, record: Option<Json>): Verdict {
    Decide(SomeMatch(codec, rows, Denying, ctx, record), SomeMatch(codec, rows, Allowing, ctx, record))
  }

  method EvaluatePolicies(codec: Codec, rows: seq<PolicyRow>, ctx: Context, record: Option<Json>) returns (v: Verdict)
    ensures v == VerdictOf(codec, rows, ctx, record)
  {
    var anyAllow := false;
    var i := 0;
    while i < |rows|
      invariant 0 <= i <= |rows|
      invariant anyAllow == SomeMatch(codec, rows[..i], Allowing, ctx, record)
      invariant !SomeMatch(codec, rows[..i], Denying, ctx, record)
    {
      assert rows[..i + 1] == rows[..i] + [rows[i]];
      var matched := EvaluatePolicyRow(codec, rows[i], ctx, record);
      if matched {
        if rows[i].effect == Denying { return DenyVerdict; }
        anyAllow := true;
      }
      i := i + 1;
    }
    assert rows[..|rows|] == rows;
    return if anyAllow then AllowVerdict else NoMatch;
  }

  /** Denied when a matching row denies, allowed when none does and one allows, and no match otherwise. */
  lemma VerdictByRows(codec: Codec, rows: seq<PolicyRow>, ctx: Context, record: Option<Json>)
    ensures VerdictOf(codec, rows, ctx, record) == DenyVerdict <==>
            exists i :: 0 <= i < |rows| && rows[i].effect == Denying && Matches(codec, rows[i], ctx, record)
    ensures VerdictOf(codec, rows, ctx, record) == NoMatch <==>
            forall i :: 0 <= i < |rows| ==> !Matches(codec, rows[i], ctx, record)
  {
    hide Matches;
    forall i | 0 <= i < |rows| ensures rows[i] in rows {}
  }

  lemma VerdictOfSameRows(codec: Codec, a: seq<PolicyRow>, b: seq<PolicyRow>, ctx: Context, record: Option<Json>)
    requires forall row :: row in a <==> row in b
    ensures VerdictOf(codec, a, ctx, record) == VerdictOf(codec, b, ctx, record)
  {
  }

  /** Any reordering of the rows gives the same verdict. */
  lemma VerdictOfReordering(codec: Codec, a: seq<PolicyRow>, b: seq<PolicyRow>, ctx: Context, record: Option<Json>)
    requires multiset(a) == multiset(b)
    ensures VerdictOf(codec, a, ctx, record) == VerdictOf(codec, b, ctx, record)
  {
    forall row ensures row in a <==> row in b { assert row in multiset(a) <==> row in multiset(b); }
  }

  // ---------------------------------------------------------------- the policy explainer

  datatype Gate = GateOpen | GatePassed | GateFailed

  datatype TraceEntry = TraceEntry(policyId: string, effect: Effect, roleGate: Gate, conditionGate: Gate)
  {
    predicate Matched() { roleGate != GateFailed && conditionGate != GateFailed }
  }

  datatype Explanation = Explanation(allowed: bool, entries: seq<TraceEntry>)

  /** What one trace entry must say about its row. */
  ghost predicate Explains(codec: Codec, e: TraceEntry, row: PolicyRow, ctx: Context, record: Option<Json>) {
    && e.policyId == row.id
    && e.effect == row.effect
    && (e.roleGate == GateFailed <==> !RoleGate(row, ctx))
    && (e.roleGate == GateOpen <==> (!row.hasRoles || row.roles == []))
    && (e.conditionGate == GateOpen <==> (!RoleGate(row, ctx) || row.condition.None?))
    && (e.Matched() <==> Matches(codec, row, ctx, record))
  }

  method ExplainRow(codec: Codec, row: PolicyRow, ctx: Context, record: Option<Json>) returns (e: TraceEntry)
    ensures Explains(codec, e, row, ctx, record)
  {
    var rolePassed := RoleGatePassed(row.roles, row.hasRoles, ctx.roles);
    var roleGate := GateOpen;
    if row.hasRoles && |row.roles| > 0 {
      roleGate := if rolePassed then GatePassed else GateFailed;
    }
    if !rolePassed || row.condition.None? { return TraceEntry(row.id, row.effect, roleGate, GateOpen); }
    var passed := EvaluateCondition(codec, row.condition.value, SubjectOf(row, ctx, record), ctx);
    return TraceEntry(row.id, row.effect, roleGate, if passed then GatePassed else GateFailed);
  }

  ghost predicate AllExplained(
    codec: Codec, es: seq<TraceEntry>, rows: seq<PolicyRow>, ctx: Context, record: Option<Json>) {
    |es| == |rows| && forall i :: 0 <= i < |rows| ==> Explains(codec, es[i], rows[i], ctx, record)
  }

  predicate SomeEntry(es: seq<TraceEntry>, effect: Effect) {
    exists i :: 0 <= i < |es| && es[i].effect == effect && es[i].Matched()
  }

  lemma EntriesMatchRows(
    codec: Codec, es: seq<TraceEntry>, rows: seq<PolicyRow>, ctx: Context, record: Option<Json>, effect: Effect)
    requires AllExplained(codec, es, rows, ctx, record)
    ensures SomeEntry(es, effect) == SomeMatch(codec, rows, effect, ctx, record)
  {
    if SomeEntry(es, effect) {
      var i :| 0 <= i < |es| && es[i].effect == effect && es[i].Matched();
      assert rows[i] in rows && Explains(codec, es[i], rows[i], ctx, record);
    }
    if SomeMatch(codec, rows, effect, ctx, record) {
      var row :| row in rows && row.effect == effect && Matches(codec, row, ctx, record);
      var i :| 0 <= i < |rows| && rows[i] == row;
      assert Explains(codec, es[i], rows[i], ctx, record);
    }
  }

  /** The simulator's trace: one entry per row, and "allowed" exactly when the verdict is Allow, except that
      an empty row set is reported as allowed. */
  method ExplainPolicies(
    codec: Codec, rows: seq<PolicyRow>, ctx: Context, record: Option<Json>)
      returns (x: Explanation)
    ensures x.allowed <==> rows == [] || VerdictOf(codec, rows, ctx, record) == AllowVerdict
    ensures AllExplained(codec, x.entries, rows, ctx, record)
  {
    if |rows| == 0 { return Explanation(true, []); }
    var entries: seq<TraceEntry> := [];
    var i := 0;
    while i < |rows|
      invariant 0 <= i <= |rows|
      invariant AllExplained(codec, entries, rows[..i], ctx, record)
    {
      var e := ExplainRow(codec, rows[i], ctx, record);
      entries := entries + [e];
      i := i + 1;
    }
    assert rows[..|rows|] == rows;
    var deny, allow := false, false;
    i := 0;
    while i < |entries|
      invariant 0 <= i <= |entries|
      invariant deny == SomeEntry(entries[..i], Denying)
      invariant allow == SomeEntry(entries[..i], Allowing)
    {
      AppendEntry(entries, i, Denying);
      AppendEntry(entries, i, Allowing);
      if entries[i].Matched() {
        if entries[i].effect == Denying { deny := true; } else { allow := true; }
      }
      i := i + 1;
    }
    assert entries[..|entries|] == entries;
    EntriesMatchRows(codec, entries, rows, ctx, record, Denying);
    EntriesMatchRows(codec, entries, rows, ctx, record, Allowing);
    return Explanation(!deny && allow, entries);
  }

  lemma AppendEntry(es: seq<TraceEntry>, i: nat, effect: Effect)
    requires i < |es|
    ensures SomeEntry(es[..i + 1], effect)
            == (SomeEntry(es[..i], effect) || (es[i].effect == effect && es[i].Matched()))
  {
    if SomeEntry(es[..i], effect) {
      var k :| 0 <= k < i && es[..i][k].effect == effect && es[..i][k].Matched();
      assert es[..i + 1][k] == es[..i][k];
    }
    if es[i].effect == effect && es[i].Matched() { assert es[..i + 1][i] == es[i]; }
    if SomeEntry(es[..i + 1], effect) {
      var k :| 0 <= k < i + 1 && es[..i + 1][k].effect == effect && es[..i + 1][k].Matched();
      if k < i { assert es[..i][k] == es[..i + 1][k]; }
    }
  }

  // ---------------------------------------------------------------- record dependence

  datatype Stability = Always | Never | RecordDependent

  /** matchStabilityOf: can the record still change whether this row matches? */
  function StabilityOf(codec: Codec, row: PolicyRow, ctx: Context): Stability {
    if !RoleGate(row, ctx) then Never
    else if row.condition.None? then Always
    else if row.subject == "record" then RecordDependent
    else if Holds(codec, row.condition.value, ctx.ToValue(), ctx) then Always
    else Never
  }

  /** Whether a row matches when the conditions on the record come out as `outcome` says. */
  predicate MatchesUnder(codec: Codec, row: PolicyRow, ctx: Context, outcome: Condition -> bool) {
    && RoleGate(row, ctx)
    && match row.condition
       case None => true
       case Some(c) => if row.subject == "record" then outcome(c) else Holds(codec, c, ctx.ToValue(), ctx)
  }

  predicate SomeMatchUnder(
    codec: Codec, rows: seq<PolicyRow>, effect: Effect, ctx: Context, outcome: Condition -> bool) {
    exists row :: row in rows && row.effect == effect && MatchesUnder(codec, row, ctx, outcome)
  }

  function VerdictUnder(codec: Codec, rows: seq<PolicyRow>, ctx: Context, outcome: Condition -> bool): Verdict {
    Decide(SomeMatchUnder(codec, rows, Denying, ctx, outcome), SomeMatchUnder(codec, rows, Allowing, ctx, outcome))
  }

  /** The stability of a row is what its matching can be: always, never, or as its condition comes out. */
  lemma StabilityIsExact(codec: Codec, row: PolicyRow, ctx: Context, outcome: Condition -> bool)
    ensures StabilityOf(codec, row, ctx) == Always ==> MatchesUnder(codec, row, ctx, outcome)
    ensures StabilityOf(codec, row, ctx) == Never ==> !MatchesUnder(codec, row, ctx, outcome)
    ensures StabilityOf(codec, row, ctx) == RecordDependent ==>
            row.condition.Some? && MatchesUnder(codec, row, ctx, outcome) == outcome(row.condition.value)
  {
  }

  /** The assignment a given record produces. */
  function OutcomesOf(codec: Codec, ctx: Context, record: Json): Condition -> bool { c => Holds(codec, c, record, ctx) }

  lemma RecordIsOneAssignment(codec: Codec, rows: seq<PolicyRow>, ctx: Context, record: Json)
    ensures VerdictUnder(codec, rows, ctx, OutcomesOf(codec, ctx, record)) == VerdictOf(codec, rows, ctx, Some(record))
  {
    forall row ensures MatchesUnder(codec, row, ctx, OutcomesOf(codec, ctx, record))
      == Matches(codec, row, ctx, Some(record)) {}
  }

  predicate SomeStable(codec: Codec, rows: seq<PolicyRow>, effect: Effect, ctx: Context, s: Stability) {
    exists row :: row in rows && row.effect == effect && StabilityOf(codec, row, ctx) == s
  }

  /** The four flags of the analysis, put together. */
  predicate Dependent(codec: Codec, rows: seq<PolicyRow>, ctx: Context) {
    && !SomeStable(codec, rows, Denying, ctx, Always)
    && (SomeStable(codec, rows, Denying, ctx, RecordDependent)
        || (!SomeStable(codec, rows, Allowing, ctx, Always) && SomeStable(codec, rows, Allowing, ctx, RecordDependent)))
  }

  method MatchStabilityOf(codec: Codec, row: PolicyRow, ctx: Context) returns (s: Stability)
    ensures s == StabilityOf(codec, row, ctx)
  {
    var gate := RoleGatePassed(row.roles, row.hasRoles, ctx.roles);
    if !gate { return Never; }
    if row.condition.None? { return Always; }
    if row.subject == "record" { return RecordDependent; }
    var holds := EvaluateCondition(codec, row.condition.value, ctx.ToValue(), ctx);
    return if holds then Always else Never;
  }

  method VerdictIsRecordDependent(codec: Codec, rows: seq<PolicyRow>, ctx: Context) returns (r: bool)
    ensures r == Dependent(codec, rows, ctx)
  {
    var alwaysAllow, alwaysDeny, steerableAllow, steerableDeny := false, false, false, false;
    var i := 0;
    while i < |rows|
      invariant 0 <= i <= |rows|
      invariant alwaysAllow == SomeStable(codec, rows[..i], Allowing, ctx, Always)
      invariant alwaysDeny == SomeStable(codec, rows[..i], Denying, ctx, Always)
      invariant steerableAllow == SomeStable(codec, rows[..i], Allowing, ctx, RecordDependent)
      invariant steerableDeny == SomeStable(codec, rows[..i], Denying, ctx, RecordDependent)
    {
      assert rows[..i + 1] == rows[..i] + [rows[i]];
      var deny := rows[i].effect == Denying;
      var s := MatchStabilityOf(codec, rows[i], ctx);
      match s {
        case Never =>
        case Always => if deny { alwaysDeny := true; } else { alwaysAllow := true; }
        case RecordDependent => if deny { steerableDeny := true; } else { steerableAllow := true; }
      }
      i := i + 1;
    }
    assert rows[..|rows|] == rows;
    if alwaysDeny { return false; }
    if steerableDeny { return true; }
    return !alwaysAllow && steerableAllow;
  }

  lemma StableUnder(codec: Codec, rows: seq<PolicyRow>, effect: Effect, ctx: Context, outcome: Condition -> bool)
    ensures SomeStable(codec, rows, effect, ctx, Always) ==> SomeMatchUnder(codec, rows, effect, ctx, outcome)
    ensures SomeMatchUnder(codec, rows, effect, ctx, outcome)
            ==> SomeStable(codec, rows, effect, ctx, Always) || SomeStable(codec, rows, effect, ctx, RecordDependent)
    ensures (forall c :: outcome(c)) && SomeStable(codec, rows, effect, ctx, RecordDependent)
            ==> SomeMatchUnder(codec, rows, effect, ctx, outcome)
    ensures (forall c :: !outcome(c)) && SomeMatchUnder(codec, rows, effect, ctx, outcome)
            ==> SomeStable(codec, rows, effect, ctx, Always)
  {
    hide StabilityOf, MatchesUnder;
    forall row
      ensures StabilityOf(codec, row, ctx) == Always ==> MatchesUnder(codec, row, ctx, outcome)
      ensures StabilityOf(codec, row, ctx) == Never ==> !MatchesUnder(codec, row, ctx, outcome)
      ensures StabilityOf(codec, row, ctx) == RecordDependent ==>
              row.condition.Some? && MatchesUnder(codec, row, ctx, outcome) == outcome(row.condition.value)
    {
      StabilityIsExact(codec, row, ctx, outcome);
    }
  }

  /** The analysis is exact: it says "dependent" if and only if two assignments of outcomes to the
      record-subject conditions give different verdicts. */
  lemma RecordDependenceIsExact(codec: Codec, rows: seq<PolicyRow>, ctx: Context)
    ensures Dependent(codec, rows, ctx) <==>
            exists a: Condition -> bool, b: Condition -> bool ::
              VerdictUnder(codec, rows, ctx, a) != VerdictUnder(codec, rows, ctx, b)
  {
    hide SomeStable, SomeMatchUnder;
    var yes: Condition -> bool, no: Condition -> bool := c => true, c => false;
    StableUnder(codec, rows, Denying, ctx, yes);
    StableUnder(codec, rows, Denying, ctx, no);
    StableUnder(codec, rows, Allowing, ctx, yes);
    StableUnder(codec, rows, Allowing, ctx, no);
    if Dependent(codec, rows, ctx) {
      assert VerdictUnder(codec, rows, ctx, yes) != VerdictUnder(codec, rows, ctx, no);
    } else {
      forall a: Condition -> bool, b: Condition -> bool
        ensures VerdictUnder(codec, rows, ctx, a) == VerdictUnder(codec, rows, ctx, b)
      {
        StableUnder(codec, rows, Denying, ctx, a);
        StableUnder(codec, rows, Denying, ctx, b);
        StableUnder(codec, rows, Allowing, ctx, a);
        StableUnder(codec, rows, Allowing, ctx, b);
      }
    }
  }

  /** A verdict the analysis calls independent is the same on every record. */
  lemma IndependentVerdict(codec: Codec, rows: seq<PolicyRow>, ctx: Context, r1: Json, r2: Json)
    requires !Dependent(codec, rows, ctx)
    ensures VerdictOf(codec, rows, ctx, Some(r1)) == VerdictOf(codec, rows, ctx, Some(r2))
  {
    RecordDependenceIsExact(codec, rows, ctx);
    RecordIsOneAssignment(codec, rows, ctx, r1);
    RecordIsOneAssignment(codec, rows, ctx, r2);
    var a, b := OutcomesOf(codec, ctx, r1), OutcomesOf(codec, ctx, r2);
    assert VerdictUnder(codec, rows, ctx, a) == VerdictUnder(codec, rows, ctx, b);
  }
}
