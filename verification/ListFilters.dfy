/** The `?field=value` filters of a list request. */
module ListFilters {
  import opened Prelude
  import opened Metadata
  import opened Sql
  import opened SqlReading
  import opened SqlBuilder
  import opened Substring
  import opened SortKeys

  /** Declared fields by name; a later declaration of the same name wins. */
  function ByName(fields: seq<Field>): (m: map<string, Field>)
    ensures forall n :: n in m ==> m[n].name == n
  {
    if |fields| == 0 then map[]
    else ByName(fields[..|fields| - 1])[fields[|fields| - 1].name := fields[|fields| - 1]]
  }

  function Declared(m: map<string, Field>, name: string): Option<Field> {
    if name in m then Some(m[name]) else None
  }

  method FieldsByName(fields: seq<Field>) returns (m: map<string, Field>)
    ensures m == ByName(fields)
  {
    m := map[];
    var i := 0;
    while i < |fields|
      invariant 0 <= i <= |fields|
      invariant m == ByName(fields[..i])
    {
      assert fields[..i + 1][..i] == fields[..i];
      m := m[fields[i].name := fields[i]];
      i := i + 1;
    }
    assert fields[..|fields|] == fields;
  }

  // ---------------------------------------------------------------- one filter

  predicate IsSubstring(def: Option<Field>) { def.Some? && def.value.searchable && !IsFts(def.value) }

  predicate IsFullText(def: Option<Field>) { def.Some? && IsFts(def.value) }

  function SimpleCall(f: string, arg: seq<Tok>): seq<Tok> {
    [Word(f), LP] + (Join([[StrLit("simple")], arg], [Comma]) + [RP])
  }

  function FilterText(field: string, value: string, def: Option<Field>, ps: seq<Bind>): (r: Emitted)
    ensures ps <= r.params
  {
    var s := SortExpression(field, def, ps);
    var ph := Dollar(|s.params| + 1);
    if IsFullText(def) then
      Emitted(SimpleCall("to_tsvector", s.toks) + [Op("@@")] + SimpleCall("plainto_tsquery", [ph]),
        s.params + [TextBind(value)])
    else if IsSubstring(def) then
      Emitted(s.toks + IlikeTest(false) + [ph], s.params + [TextBind(IlikePattern(value))])
    else if value == "" then Emitted(s.toks + NullTest(false), s.params)
    else Emitted(s.toks + [Op("=")] + ([ph] + SortSuffix(s.ct)), s.params + [TextBind(value)])
  }

  function FilterTruth(field: string, value: string, def: Option<Field>, db: Db, row: Row): Tri {
    var k := KeyValue(field, def, db, row);
    if IsFullText(def) then
      Compare(db, "@@", db.other("to_tsvector", [Scalar("simple"), k]),
        db.other("plainto_tsquery", [Scalar("simple"), Scalar(value)]))
    else if IsSubstring(def) then (if k.Scalar? then Of(Contains(Fold(db, k.s), Fold(db, value))) else Unknown)
    else if value == "" then Of(k == Null)
    else Compare(db, "=", k, AsSortType(db, KeyType(field, def), Scalar(value)))
  }

  lemma SimpleCallReads(f: string, arg: seq<Tok>, e: Expr)
    requires AsPrimary(arg, e) && arg != [] && arg[0] != KNot
    ensures AsPrimary(SimpleCall(f, arg), Call(f, [Str("simple"), e]))
  {
    hide AsPrimary, AsPredicate, AsCondition, Join;
    ReadAtom(StrLit("simple"));
    PrimaryIsPredicate([StrLit("simple")], Str("simple"));
    PredicateIsCondition([StrLit("simple")], Str("simple"));
    PrimaryIsPredicate(arg, e);
    PredicateIsCondition(arg, e);
    assert AllConditions([[StrLit("simple")], arg], [Str("simple"), e]);
    ReadCall(f, [[StrLit("simple")], arg], [Str("simple"), e]);
  }

  lemma SimpleCallValue(f: string, e: Expr, db: Db, row: Row, qs: seq<Bind>)
    requires f != "jsonb_extract_path_text"
    ensures Eval(Call(f, [Str("simple"), e]), db, row, qs) == db.other(f, [Scalar("simple"), Eval(e, db, row, qs)])
  {
    var args := [Str("simple"), e];
    assert args[1..] == [e];
    assert EvalSeq([e], db, row, qs) == [Eval(e, db, row, qs)];
    assert EvalSeq(args, db, row, qs) == [Scalar("simple"), Eval(e, db, row, qs)];
  }

  lemma FullTextReads(
    field: string, value: string, def: Option<Field>, ps: seq<Bind>, db: Db, row: Row, qs: seq<Bind>)
      returns (e: Expr)
    requires IsFullText(def) && FilterText(field, value, def, ps).params <= qs
    ensures AsNegation(FilterText(field, value, def, ps).toks, e)
    ensures Truth(e, db, row, qs) == FilterTruth(field, value, def, db, row)
  {
    hide AsPrimary, AsOperand, AsPredicate, AsNegation, Join, Compare, Eval, KeyValue;
    var s := SortExpression(field, def, ps);
    var n := |s.params| + 1;
    var k := SortExpressionReads(field, def, ps, db, row, qs);
    BindAt(s.params, TextBind(value), qs);
    ReadAtom(Dollar(n));
    Leaves(n, db, row, qs);
    SimpleCallReads("to_tsvector", s.toks, k);
    SimpleCallReads("plainto_tsquery", [Dollar(n)], Param(n));
    var l, r := Call("to_tsvector", [Str("simple"), k]), Call("plainto_tsquery", [Str("simple"), Param(n)]);
    PrimaryIsOperand(SimpleCall("plainto_tsquery", [Dollar(n)]), r);
    ComparisonReads(SimpleCall("to_tsvector", s.toks), l, "@@", SimpleCall("plainto_tsquery", [Dollar(n)]), r);
    e := Bin("@@", l, r);
    TruthOfBin("@@", l, r, db, row, qs);
    SimpleCallValue("to_tsvector", k, db, row, qs);
    SimpleCallValue("plainto_tsquery", Param(n), db, row, qs);
  }

  lemma SubstringReads(
    field: string, value: string, def: Option<Field>, ps: seq<Bind>, db: Db, row: Row, qs: seq<Bind>)
      returns (e: Expr)
    requires IsSubstring(def) && FoldKeepsMeta(db) && FilterText(field, value, def, ps).params <= qs
    ensures AsNegation(FilterText(field, value, def, ps).toks, e)
    ensures Truth(e, db, row, qs) == FilterTruth(field, value, def, db, row)
  {
    hide AsPrimary, AsOperand, AsPredicate, AsNegation, IlikeValue, Contains, KeyValue;
    var s := SortExpression(field, def, ps);
    var n := |s.params| + 1;
    var k := SortExpressionReads(field, def, ps, db, row, qs);
    BindAt(s.params, TextBind(IlikePattern(value)), qs);
    ReadAtom(Dollar(n));
    PrimaryIsOperand([Dollar(n)], Param(n));
    PrimaryIsOperand(s.toks, k);
    ReadIlike(s.toks, k, false, [Dollar(n)], Param(n));
    e := Ilike(k, Param(n), false);
    PredicateIsNegation(s.toks + IlikeTest(false) + [Dollar(n)], e);
    IlikeIsContainment(db, KeyValue(field, def, db, row), value);
    Leaves(n, db, row, qs);
    assert Eval(e, db, row, qs) == FromTri(IlikeValue(db, Eval(k, db, row, qs), Eval(Param(n), db, row, qs)));
  }

  lemma FilterReads(
    field: string, value: string, def: Option<Field>, ps: seq<Bind>, db: Db, row: Row, qs: seq<Bind>)
      returns (e: Expr)
    requires FoldKeepsMeta(db) && FilterText(field, value, def, ps).params <= qs
    ensures AsNegation(FilterText(field, value, def, ps).toks, e)
    ensures Truth(e, db, row, qs) == FilterTruth(field, value, def, db, row)
  {
    hide AsPrimary, AsOperand, AsNegation, Compare, KeyValue, Eval, Truth;
    if IsFullText(def) {
      e := FullTextReads(field, value, def, ps, db, row, qs);
    } else if IsSubstring(def) {
      e := SubstringReads(field, value, def, ps, db, row, qs);
    } else {
      var s := SortExpression(field, def, ps);
      var k := SortExpressionReads(field, def, ps, db, row, qs);
      if value == "" {
        NullTestReads(s.toks, k, false);
        e := IsNull(k, false);
        TruthOfIsNull(k, false, db, row, qs);
      } else {
        var n := |s.params| + 1;
        BindAt(s.params, TextBind(value), qs);
        var v := CastPlaceholderReads(n, s.ct, db, row, qs);
        ComparisonReads(s.toks, k, "=", [Dollar(n)] + SortSuffix(s.ct), v);
        e := Bin("=", k, v);
        TruthOfBin("=", k, v, db, row, qs);
      }
    }
  }

  // ---------------------------------------------------------------- the filters of a request

  /** Filters on fields the list view does not offer are ignored. */
  function FilterTexts(
    filters: seq<(string, string)>, allowed: set<string>, fields: map<string, Field>,
    ps: seq<Bind>): (r: (seq<seq<Tok>>, seq<Bind>))
    ensures ps <= r.1
    decreases |filters|
  {
    if |filters| == 0 then ([], ps)
    else if filters[0].0 !in allowed then FilterTexts(filters[1..], allowed, fields, ps)
    else
      var em := FilterText(filters[0].0, filters[0].1, Declared(fields, filters[0].0), ps);
      var (texts, qs) := FilterTexts(filters[1..], allowed, fields, em.params);
      ([em.toks] + texts, qs)
  }

  /** Every offered filter is true of the row. */
  predicate PassesFilters(
    filters: seq<(string, string)>, allowed: set<string>, fields: map<string, Field>, db: Db, row: Row) {
    forall i :: 0 <= i < |filters| && filters[i].0 in allowed ==>
      FilterTruth(filters[i].0, filters[i].1, Declared(fields, filters[i].0), db, row) == True3
  }

  method AppendFilter(field: string, value: string, def: Option<Field>, params: ParamBuilder) returns (toks: seq<Tok>)
    modifies params
    ensures Emitted(toks, params.params) == FilterText(field, value, def, old(params.params))
  {
    var s, ct := SortFieldExpression(field, def, params);
    if def.Some? && IsFts(def.value) {
      var ph := params.Push(TextBind(value));
      return SimpleCall("to_tsvector", s) + [Op("@@")] + SimpleCall("plainto_tsquery", [ph]);
    }
    if def.Some? && def.value.searchable {
      var pattern := IlikeEscape(value);
      var ph := params.Push(TextBind(pattern));
      return s + IlikeTest(false) + [ph];
    }
    if value == "" { return s + NullTest(false); }
    var ph := params.Push(TextBind(value));
    return s + [Op("=")] + ([ph] + SortSuffix(ct));
  }

  /** The planner's filter loop. */
  method AppendFilters(
    filters: seq<(string, string)>, allowed: set<string>, fields: map<string, Field>, params: ParamBuilder)
    returns (texts: seq<seq<Tok>>)
    modifies params
    ensures (texts, params.params) == FilterTexts(filters, allowed, fields, old(params.params))
  {
    hide FilterText;
    texts := [];
    ghost var ps0 := params.params;
    assert filters[0..] == filters;
    var i := 0;
    while i < |filters|
      invariant 0 <= i <= |filters|
      invariant FilterTexts(filters, allowed, fields, ps0).0
                == texts + FilterTexts(filters[i..], allowed, fields, params.params).0
      invariant FilterTexts(filters, allowed, fields, ps0).1
                == FilterTexts(filters[i..], allowed, fields, params.params).1
    {
      assert filters[i..][1..] == filters[i + 1..] && filters[i..][0] == filters[i];
      if filters[i].0 in allowed {
        ghost var done := texts;
        var toks := AppendFilter(filters[i].0, filters[i].1, Declared(fields, filters[i].0), params);
        texts := texts + [toks];
        AppendAssoc(done, [toks], FilterTexts(filters[i + 1..], allowed, fields, params.params).0);
      }
      i := i + 1;
    }
    assert filters[|filters|..] == [] && texts + [] == texts;
  }

  lemma {:induction false} FiltersRead(
    filters: seq<(string, string)>, allowed: set<string>, fields: map<string, Field>, ps: seq<Bind>, db: Db, row: Row,
    qs: seq<Bind>)
    returns (es: seq<Expr>)
    requires FoldKeepsMeta(db) && FilterTexts(filters, allowed, fields, ps).1 <= qs
    ensures AllNegations(FilterTexts(filters, allowed, fields, ps).0, es)
    ensures All3(Truths(es, db, row, qs)) == True3 <==> PassesFilters(filters, allowed, fields, db, row)
    decreases |filters|
  {
    hide AsNegation, FilterText, FilterTruth, Truth;
    if |filters| == 0 {
      es := [];
    } else {
      var tail := filters[1..];
      if filters[0].0 !in allowed {
        es := FiltersRead(tail, allowed, fields, ps, db, row, qs);
      } else {
        var def := Declared(fields, filters[0].0);
        var em := FilterText(filters[0].0, filters[0].1, def, ps);
        var e := FilterReads(filters[0].0, filters[0].1, def, ps, db, row, qs);
        var rest := FiltersRead(tail, allowed, fields, em.params, db, row, qs);
        es := [e] + rest;
        assert Truths(es, db, row, qs)[1..] == Truths(rest, db, row, qs);
      }
      assert forall i :: 1 <= i < |filters| ==> filters[i] == tail[i - 1];
      assert PassesFilters(filters, allowed, fields, db, row) <==>
             (filters[0].0 in allowed ==>
               FilterTruth(filters[0].0, filters[0].1, Declared(fields, filters[0].0), db, row) == True3)
             && PassesFilters(tail, allowed, fields, db, row);
    }
  }
}
