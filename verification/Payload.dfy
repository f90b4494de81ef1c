/** Payload validation and computed fields, as an entity declares them, and what they mean for its state field. */
module Payload {
  import opened Prelude
  import opened Json
  import M = Metadata
  import Crud

  /** What a declared field asks of its value, and the template of a computed one. */
  datatype FieldRule = FieldRule(
    name: string,
    kind: M.Kind,
    required: bool,
    enumValues: seq<string>,
    minLength: Option<nat>,
    maxLength: Option<nat>,
    computed: Option<string>)

  /** Parsing and printing that is done elsewhere: numbers, their bounds, UUIDs in canonical form, and the text of a
      value that is not a string. */
  datatype Readers = Readers(
    number: string -> bool,
    inRange: (FieldRule, string) -> bool,
    uuid: string -> Option<string>,
    show: Json -> string)

  // ---------------------------------------------------------------- validation

  predicate HasValue(f: FieldRule, data: Record) { f.name in data && data[f.name] != JNull }

  predicate KindMatches(rd: Readers, f: FieldRule, v: Json) {
    match f.kind
    case KindId => v.JStr?
    case KindString => v.JStr?
    case KindDate => v.JStr?
    case KindDatetime => v.JStr?
    case KindReference => v.JStr? && rd.uuid(v.s).Some?
    case KindNumber => v.JNum? && rd.number(v.text)
    case KindMoney => v.JNum? && rd.number(v.text)
    case KindBoolean => v.JBool?
    case KindEnum => v.JStr? && v.s in f.enumValues
    case KindJson => true
  }

  /** The length is counted in code points and cut to 32 bits. */
  predicate InBounds(rd: Readers, f: FieldRule, v: Json)
    requires KindMatches(rd, f, v)
  {
    && (f.kind.KindNumber? || f.kind.KindMoney? ==> rd.inRange(f, v.text))
    && (f.kind.KindString? ==>
          var n := |v.s| % 0x1_0000_0000;
          (f.minLength.Some? ==> f.minLength.value <= n) && (f.maxLength.Some? ==> n <= f.maxLength.value))
  }

  predicate Accepts(rd: Readers, f: FieldRule, data: Record) {
    if !HasValue(f, data) then !f.required
    else KindMatches(rd, f, data[f.name]) && InBounds(rd, f, data[f.name])
  }

  /** Which values a field takes, value by value: texts for ids, strings, dates, references that parse and members of an
      enum; numbers that parse and are in range; booleans; anything for JSON; and null or nothing unless it is
      required. A string must have an allowed length. */
  lemma AcceptsExactly(rd: Readers, f: FieldRule, data: Record)
    ensures f.name !in data ==> (Accepts(rd, f, data) <==> !f.required)
    ensures f.name in data ==>
            (Accepts(rd, f, data) <==>
             match data[f.name]
             case JNull => !f.required
             case JBool(_) => f.kind in {M.KindBoolean, M.KindJson}
             case JNum(t) =>
               f.kind == M.KindJson || (f.kind in {M.KindNumber, M.KindMoney} && rd.number(t) && rd.inRange(f, t))
             case JStr(t) =>
               || f.kind in {M.KindId, M.KindDate, M.KindDatetime, M.KindJson}
               || (f.kind == M.KindReference && rd.uuid(t).Some?)
               || (f.kind == M.KindEnum && t in f.enumValues)
               || (f.kind == M.KindString
                   && (f.minLength == None || |t| % 0x1_0000_0000 >= f.minLength.value)
                   && (f.maxLength == None || |t| % 0x1_0000_0000 <= f.maxLength.value))
             case JArr(_) => f.kind == M.KindJson
             case JObj(_) => f.kind == M.KindJson)
  {
  }

  predicate IsReference(fields: seq<FieldRule>, name: string) {
    exists i :: 0 <= i < |fields| && fields[i].name == name && fields[i].kind.KindReference?
  }

  function Canonical(rd: Readers, v: Json): Json {
    if v.JStr? && rd.uuid(v.s).Some? then JStr(rd.uuid(v.s).value) else v
  }

  /** The record as it is stored: references in canonical form, everything else untouched. */
  function Stored(rd: Readers, fields: seq<FieldRule>, data: Record): Record {
    map k | k in data :: if IsReference(fields, k) then Canonical(rd, data[k]) else data[k]
  }

  function Validated(rd: Readers, fields: seq<FieldRule>, data: Record): Option<Record> {
    if forall i :: 0 <= i < |fields| ==> Accepts(rd, fields[i], data) then Some(Stored(rd, fields, data)) else None
  }

  function Faulty(rd: Readers, fields: seq<FieldRule>, data: Record): set<string> {
    set f | f in fields && !Accepts(rd, f, data) :: f.name
  }

  lemma NoneFaulty(rd: Readers, fields: seq<FieldRule>, data: Record)
    ensures Faulty(rd, fields, data) == {} <==> Validated(rd, fields, data).Some?
  {
    hide Accepts;
    if i :| 0 <= i < |fields| && !Accepts(rd, fields[i], data) {
      assert fields[i].name in Faulty(rd, fields, data);
    }
  }

  lemma FaultyMore(rd: Readers, fields: seq<FieldRule>, i: nat, data: Record)
    requires i < |fields|
    ensures Faulty(rd, fields[..i + 1], data)
            == Faulty(rd, fields[..i], data) + if Accepts(rd, fields[i], data) then {} else {fields[i].name}
  {
    hide Accepts;
    assert fields[..i + 1] == fields[..i] + [fields[i]];
  }

  /** ValidatePayload: the stored form, or the names of the fields at fault. */
  method ValidatePayload(rd: Readers, fields: seq<FieldRule>, data: Record)
    returns (result: Option<Record>, errs: set<string>)
    ensures result == Validated(rd, fields, data)
    ensures errs == Faulty(rd, fields, data)
    ensures result.None? <==> errs != {}
  {
    hide Faulty, Stored;
    var stored := data;
    errs := {};
    assert Faulty(rd, fields[..0], data) == {} && Stored(rd, fields[..0], data) == data by {
      assert fields[..0] == [];
      NothingChecked(rd, data);
    }
    for i := 0 to |fields|
      invariant errs == Faulty(rd, fields[..i], data)
      invariant errs == {} ==> stored == Stored(rd, fields[..i], data)
    {
      var field := fields[i];
      FaultyMore(rd, fields, i, data);
      StoredMore(rd, fields, i, data);
      var hasValue := field.name in data && data[field.name] != JNull;
      if !hasValue {
        if field.required { errs := errs + {field.name}; }
      } else {
        var raw := data[field.name];
        if !KindMatches(rd, field, raw) {
          errs := errs + {field.name};
        } else {
          if field.kind.KindReference? { stored := stored[field.name := JStr(rd.uuid(raw.s).value)]; }
          if !InBounds(rd, field, raw) { errs := errs + {field.name}; }
        }
      }
    }
    assert fields[..|fields|] == fields;
    NoneFaulty(rd, fields, data);
    result := if errs == {} then Some(stored) else None;
  }

  lemma NothingChecked(rd: Readers, data: Record)
    ensures Faulty(rd, [], data) == {} && Stored(rd, [], data) == data
  {
  }

  /** One more field: its value, if it is a reference that holds one, in canonical form. */
  lemma StoredMore(rd: Readers, fields: seq<FieldRule>, i: nat, data: Record)
    requires i < |fields|
    ensures var f, before := fields[i], Stored(rd, fields[..i], data);
            Stored(rd, fields[..i + 1], data)
            == if f.kind.KindReference? && HasValue(f, data) then before[f.name := Canonical(rd, data[f.name])]
               else before
  {
    forall k ensures IsReference(fields[..i + 1], k) <==>
                     IsReference(fields[..i], k) || (fields[i].name == k && fields[i].kind.KindReference?)
    {
      if IsReference(fields[..i], k) {
        var j :| 0 <= j < i && fields[..i][j].name == k && fields[..i][j].kind.KindReference?;
        assert fields[..i + 1][j].name == k;
      }
      if fields[i].name == k { assert fields[..i + 1][i].name == k; }
      if IsReference(fields[..i + 1], k) {
        var j :| 0 <= j < i + 1 && fields[..i + 1][j].name == k && fields[..i + 1][j].kind.KindReference?;
        if j < i { assert fields[..i][j].name == k; }
      }
    }
  }

  predicate Distinct(fields: seq<FieldRule>) {
    forall i, j :: 0 <= i < j < |fields| ==> fields[i].name != fields[j].name
  }

  /** Validating what validation returned changes nothing, when parsing a canonical UUID gives it back. */
  lemma ValidatedAgain(rd: Readers, fields: seq<FieldRule>, data: Record)
    requires Distinct(fields) && Validated(rd, fields, data).Some?
    requires forall t :: rd.uuid(t).Some? ==> rd.uuid(rd.uuid(t).value) == rd.uuid(t)
    ensures var d := Validated(rd, fields, data).value; Validated(rd, fields, d) == Some(d)
  {
    hide InBounds;
    var d := Stored(rd, fields, data);
    forall k | k in data && IsReference(fields, k) ensures Canonical(rd, d[k]) == d[k] {
    }
    assert Stored(rd, fields, d) == d;
    forall i | 0 <= i < |fields| ensures Accepts(rd, fields[i], d) {
      var f := fields[i];
      assert Accepts(rd, f, data);
      if f.name in data && IsReference(fields, f.name) {
        assert f.kind.KindReference?;
        ReferenceInBounds(rd, f, d[f.name]);
      }
    }
  }

  lemma ReferenceInBounds(rd: Readers, f: FieldRule, v: Json)
    requires f.kind.KindReference? && (v.JStr? ==> rd.uuid(v.s).Some?)
    ensures KindMatches(rd, f, v) ==> InBounds(rd, f, v)
  {
  }

  // ---------------------------------------------------------------- templates

  function Until(text: string, c: char): (n: nat)
    requires c in text
    ensures n < |text| && text[n] == c && c !in text[..n]
  {
    if text[0] == c then 0 else 1 + Until(text[1..], c)
  }

  predicate OpensToken(expr: string) { |expr| > 0 && expr[0] == '{' && '}' in expr[1..] }

  /** The text between the braces, and what follows them. */
  function TokenOf(expr: string): (string, string)
    requires OpensToken(expr)
  {
    var n := Until(expr[1..], '}');
    (expr[1..][..n], expr[1..][n + 1..])
  }

  function Tokens(expr: string): seq<string>
    decreases |expr|
  {
    if |expr| == 0 then []
    else if OpensToken(expr) then [TokenOf(expr).0] + Tokens(TokenOf(expr).1)
    else Tokens(expr[1..])
  }

  function Rendered(expr: string, resolve: string -> string): string
    decreases |expr|
  {
    if |expr| == 0 then ""
    else if OpensToken(expr) then resolve(TokenOf(expr).0) + Rendered(TokenOf(expr).1, resolve)
    else [expr[0]] + Rendered(expr[1..], resolve)
  }

  /** RenderExpression; an unterminated brace stays as it is. */
  method RenderExpression(expr: string, resolve: string -> string) returns (result: string)
    ensures result == Rendered(expr, resolve)
  {
    hide Rendered, Until;
    result := "";
    var i := 0;
    assert expr[0..] == expr;
    while i < |expr|
      invariant 0 <= i <= |expr| && result + Rendered(expr[i..], resolve) == Rendered(expr, resolve)
    {
      if expr[i] == '{' && '}' in expr[i + 1..] {
        var n := Until(expr[i + 1..], '}');
        RenderToken(expr, i, n, resolve);
        result := result + resolve(expr[i + 1..][..n]);
        i := i + n + 2;
      } else {
        RenderChar(expr, i, resolve);
        result := result + [expr[i]];
        i := i + 1;
      }
    }
    assert expr[|expr|..] == "" && Rendered("", resolve) == "" by { NothingRendered(resolve); }
  }

  lemma NothingRendered(resolve: string -> string)
    ensures Rendered("", resolve) == ""
  {
  }

  lemma RenderToken(expr: string, i: nat, n: nat, resolve: string -> string)
    requires i < |expr| && expr[i] == '{' && '}' in expr[i + 1..] && n == Until(expr[i + 1..], '}')
    ensures i + n + 2 <= |expr|
    ensures Rendered(expr[i..], resolve) == resolve(expr[i + 1..][..n]) + Rendered(expr[i + n + 2..], resolve)
  {
    var s := expr[i..];
    assert s[1..] == expr[i + 1..] && expr[i + 1..][n + 1..] == expr[i + n + 2..];
    hide Until;
    assert OpensToken(s) && TokenOf(s) == (expr[i + 1..][..n], expr[i + n + 2..]);
  }

  lemma RenderChar(expr: string, i: nat, resolve: string -> string)
    requires i < |expr| && !(expr[i] == '{' && '}' in expr[i + 1..])
    ensures Rendered(expr[i..], resolve) == [expr[i]] + Rendered(expr[i + 1..], resolve)
  {
    assert expr[i..][1..] == expr[i + 1..];
  }

  /** A rendering depends on nothing but the tokens. */
  lemma {:induction false} RenderedByTokens(expr: string, a: string -> string, b: string -> string)
    requires forall t :: t in Tokens(expr) ==> a(t) == b(t)
    ensures Rendered(expr, a) == Rendered(expr, b)
    decreases |expr|
  {
    if |expr| > 0 {
      if OpensToken(expr) {
        assert TokenOf(expr).0 in Tokens(expr);
        forall t | t in Tokens(TokenOf(expr).1) ensures a(t) == b(t) { assert t in Tokens(expr); }
        RenderedByTokens(TokenOf(expr).1, a, b);
      } else {
        RenderedByTokens(expr[1..], a, b);
      }
    }
  }

  // ---------------------------------------------------------------- computed fields

  /** The text of a value in a template: strings as they are, nothing for null or an absent field. */
  function TextOf(rd: Readers, data: Record, name: string): string {
    match Lookup(data, name) { case JNull => "" case JStr(s) => s case v => rd.show(v) }
  }

  function Render(rd: Readers, expr: string, data: Record): Json {
    JStr(Rendered(expr, name => TextOf(rd, data, name)))
  }

  function Recomputed(rd: Readers, fields: seq<FieldRule>, data: Record): Record {
    if |fields| == 0 then data
    else
      var f := fields[|fields| - 1];
      var d := Recomputed(rd, fields[..|fields| - 1], data);
      if f.computed.None? then d else d[f.name := Render(rd, f.computed.value, d)]
  }

  /** recomputeFields */
  method RecomputeFields(rd: Readers, fields: seq<FieldRule>, data: Record) returns (r: Record)
    ensures r == Recomputed(rd, fields, data)
  {
    r := data;
    for i := 0 to |fields|
      invariant r == Recomputed(rd, fields[..i], data)
    {
      assert fields[..i + 1][..i] == fields[..i];
      var field := fields[i];
      if field.computed.Some? {
        var rendered := RenderExpression(field.computed.value, name => TextOf(rd, r, name));
        r := r[field.name := JStr(rendered)];
      }
    }
    assert fields[..|fields|] == fields;
  }

  predicate IsComputed(fields: seq<FieldRule>, name: string) {
    exists i :: 0 <= i < |fields| && fields[i].name == name && fields[i].computed.Some?
  }

  lemma {:induction false} RecomputedKeeps(rd: Readers, fields: seq<FieldRule>, data: Record, k: string)
    requires !IsComputed(fields, k)
    ensures k in Recomputed(rd, fields, data) <==> k in data
    ensures k in data ==> Recomputed(rd, fields, data)[k] == data[k]
    decreases |fields|
  {
    if |fields| > 0 {
      var less := fields[..|fields| - 1];
      NotComputedBefore(fields, |fields| - 1, k);
      RecomputedKeeps(rd, less, data, k);
    }
  }

  /** What metadata validation demands: names are distinct, and no template mentions a computed field. */
  predicate Unchained(fields: seq<FieldRule>) {
    && Distinct(fields)
    && forall i :: 0 <= i < |fields| && fields[i].computed.Some? ==>
         forall t :: t in Tokens(fields[i].computed.value) ==> !IsComputed(fields, t)
  }

  lemma SameText(rd: Readers, expr: string, a: Record, b: Record)
    requires forall t :: t in Tokens(expr) ==> Lookup(a, t) == Lookup(b, t)
    ensures Render(rd, expr, a) == Render(rd, expr, b)
  {
    RenderedByTokens(expr, name => TextOf(rd, a, name), name => TextOf(rd, b, name));
  }

  lemma {:induction false} ComputedByData(rd: Readers, fields: seq<FieldRule>, n: nat, data: Record, i: nat)
    requires Unchained(fields) && i < n <= |fields| && fields[i].computed.Some?
    ensures var d := Recomputed(rd, fields[..n], data);
            fields[i].name in d && d[fields[i].name] == Render(rd, fields[i].computed.value, data)
    decreases n
  {
    assert fields[..n][..n - 1] == fields[..n - 1];
    if i < n - 1 {
      ComputedByData(rd, fields, n - 1, data, i);
    } else {
      var d, expr := Recomputed(rd, fields[..n - 1], data), fields[i].computed.value;
      forall t | t in Tokens(expr) ensures Lookup(d, t) == Lookup(data, t) {
        NotComputedBefore(fields, n - 1, t);
        RecomputedKeeps(rd, fields[..n - 1], data, t);
      }
      SameText(rd, expr, d, data);
    }
  }

  lemma NotComputedBefore(fields: seq<FieldRule>, n: nat, t: string)
    requires n <= |fields| && !IsComputed(fields, t)
    ensures !IsComputed(fields[..n], t)
  {
  }

  /** Every computed field ends up as its template rendered over the data, and over the result as well, so the order of
      the fields plays no part. */
  lemma ComputedFieldHolds(rd: Readers, fields: seq<FieldRule>, data: Record, i: nat)
    requires Unchained(fields) && i < |fields| && fields[i].computed.Some?
    ensures var d := Recomputed(rd, fields, data);
            && fields[i].name in d && d[fields[i].name] == Render(rd, fields[i].computed.value, data)
            && d[fields[i].name] == Render(rd, fields[i].computed.value, d)
  {
    assert fields[..|fields|] == fields;
    ComputedByData(rd, fields, |fields|, data, i);
    var d := Recomputed(rd, fields, data);
    forall t | t in Tokens(fields[i].computed.value) ensures Lookup(d, t) == Lookup(data, t) {
      RecomputedKeeps(rd, fields, data, t);
    }
    SameText(rd, fields[i].computed.value, d, data);
  }

  /** Recomputing again changes nothing. */
  lemma RecomputedAgain(rd: Readers, fields: seq<FieldRule>, data: Record)
    requires Unchained(fields)
    ensures var d := Recomputed(rd, fields, data); Recomputed(rd, fields, d) == d
  {
    var d := Recomputed(rd, fields, data);
    var e := Recomputed(rd, fields, d);
    hide Recomputed, Unchained, Render;
    forall k ensures (k in d <==> k in e) && (k in d ==> e[k] == d[k]) {
      if IsComputed(fields, k) {
        var i :| 0 <= i < |fields| && fields[i].name == k && fields[i].computed.Some?;
        ComputedFieldHolds(rd, fields, data, i);
        ComputedFieldHolds(rd, fields, d, i);
      } else {
        RecomputedKeeps(rd, fields, d, k);
      }
    }
  }

  // ---------------------------------------------------------------- the state field

  /** The rules of an entity with these fields. */
  function RulesOf(
    rd: Readers, fields: seq<FieldRule>, guard: (Crud.Transition, Record) -> bool,
    validator: (Crud.Transition, Record) -> bool, setValue: (Crud.Transition, string) -> Json): Crud.Rules
  {
    Crud.Rules(d => Validated(rd, fields, d), d => Recomputed(rd, fields, d), guard, validator, setValue)
  }

  /** Validation and recomputation leave a field alone if and only if it is neither computed, unless its template
      happens to give its value, nor a reference, unless it is stored in canonical form. */
  lemma FieldKeptExactly(rd: Readers, fields: seq<FieldRule>, data: Record, i: nat)
    requires Unchained(fields) && i < |fields| && fields[i].name in data
    requires Validated(rd, fields, data).Some? && (fields[i].computed.Some? ==> !fields[i].kind.KindReference?)
    ensures var f, stored := fields[i], Validated(rd, fields, data).value;
            Crud.SameValue(f.name, data, Recomputed(rd, fields, stored)) <==>
            match f.computed
            case Some(expr) => data[f.name] == Render(rd, expr, stored)
            case None => f.kind.KindReference? && data[f.name].JStr? ==> rd.uuid(data[f.name].s) == Some(data[f.name].s)
  {
    var f, stored := fields[i], Validated(rd, fields, data).value;
    hide Render, Recomputed;
    assert Accepts(rd, f, data);
    if f.computed.Some? {
      ComputedFieldHolds(rd, fields, stored, i);
    } else {
      assert !IsComputed(fields, f.name) && (IsReference(fields, f.name) <==> f.kind.KindReference?);
      RecomputedKeeps(rd, fields, stored, f.name);
    }
  }

  /** Neither computed nor a reference: a string or an enum, say. */
  predicate Plain(fields: seq<FieldRule>, name: string) { !IsComputed(fields, name) && !IsReference(fields, name) }

  lemma PlainIsKept(rd: Readers, fields: seq<FieldRule>, data: Record, name: string)
    requires Plain(fields, name) && Validated(rd, fields, data).Some? && name in data
    ensures var stored := Validated(rd, fields, data).value;
            name in stored && stored[name] == data[name]
            && Crud.SameValue(name, data, Recomputed(rd, fields, stored))
  {
    hide Recomputed;
    RecomputedKeeps(rd, fields, Validated(rd, fields, data).value, name);
  }

  lemma PlainStateIsKept(
    meta: Crud.Meta, rd: Readers, fields: seq<FieldRule>, rules: Crud.Rules, w: Crud.Write)
    requires rules == RulesOf(rd, fields, rules.guard, rules.validator, rules.setValue)
    requires Crud.WellDeclared(meta) && meta.state.Some? && Plain(fields, meta.state.value)
             && meta.state.value in w.seen.data
    ensures Crud.RulesKeepState(meta, rules, w)
  {
    hide Validated, Recomputed, Plain;
    var f := meta.state.value;
    match w.req
    case Update(_, payload) =>
      var merged := Crud.Merge(meta, w.seen.data, payload);
      if Validated(rd, fields, merged).Some? { PlainIsKept(rd, fields, merged, f); }
    case Transit(_, action, payload) =>
      if Crud.TransitionData(meta, rules, w.seen.data, action, payload).Ok? {
        var t := Crud.TransitionData(meta, rules, w.seen.data, action, payload).value.1;
        var merged := (w.seen.data + payload)[f := JStr(t.to)];
        PlainIsKept(rd, fields, merged, f);
      }
    case _ =>
  }

  /** Over every run, on a record that holds a state in a plain field: no step moves it but a transition declared for
      its action, from the state the record is in to its target. */
  lemma PlainStateMovesByTransitions(
    meta: Crud.Meta, rd: Readers, fields: seq<FieldRule>, rules: Crud.Rules, events: seq<Crud.Event>,
    states: seq<Crud.State>, i: nat)
    requires rules == RulesOf(rd, fields, rules.guard, rules.validator, rules.setValue)
    requires Crud.Run(meta, rules, events, states) && Crud.Starts(states[0]) && i < |events| && Crud.WellDeclared(meta)
    requires meta.state.Some? && Plain(fields, meta.state.value) && meta.state.value in states[i].row.data
    requires Crud.CommitsWhatItReached(events[i], states[i])
    ensures var s, t := states[i], states[i + 1];
            && (t.writes == s.writes ==> Crud.SameValue(meta.state.value, s.row.data, t.row.data))
            && (t.writes != s.writes ==>
                  |t.writes| == |s.writes| + 1 && t.writes[|s.writes|].after == t.row
                  && Crud.Lawful(meta, t.writes[|s.writes|]))
  {
    hide Crud.Lawful, Crud.RulesKeepState, RulesOf, Plain, Crud.Outcome;
    Crud.StateMovesByTransitions(meta, rules, events, states, i);
    var s, t := states[i], states[i + 1];
    if t.writes != s.writes {
      assert Crud.Step(meta, rules, events[i], s, t);
      var w := t.writes[|s.writes|];
      Crud.RunKeepsInv(meta, rules, events, states, i + 1);
      assert Crud.WriteOk(meta, rules, w);
      Crud.SameState(meta, w.seen.data, w.before.data);
      PlainStateIsKept(meta, rd, fields, rules, w);
    }
  }

  // ---------------------------------------------------------------- what a write stores

  predicate SameField(k: string, a: Record, b: Record) { (k in a <==> k in b) && (k in a ==> a[k] == b[k]) }

  predicate Holds(k: string, d: Record, v: Json) { k in d && d[k] == v }

  /** An update stores the payload's value, or else what was there; a stored state stays. */
  predicate UpdateStores(meta: Crud.Meta, w: Crud.Write, k: string)
    requires w.req.Update?
  {
    if meta.state == Some(k) && k in w.before.data then Holds(k, w.after.data, w.before.data[k])
    else if k in w.req.payload then Holds(k, w.after.data, w.req.payload[k])
    else SameField(k, w.after.data, w.before.data)
  }

  /** A transition stores its target as the state, then its set-fields, then the payload's value, or else what was
      there. */
  predicate TransitionStores(meta: Crud.Meta, rules: Crud.Rules, w: Crud.Write, t: Crud.Transition, k: string)
    requires w.req.Transit?
  {
    if meta.state == Some(k) then Holds(k, w.after.data, JStr(t.to))
    else if k in t.setFields then Holds(k, w.after.data, rules.setValue(t, k))
    else if k in w.req.payload then Holds(k, w.after.data, w.req.payload[k])
    else SameField(k, w.after.data, w.before.data)
  }

  lemma SeenIsReplaced(meta: Crud.Meta, w: Crud.Write, k: string)
    requires Crud.Lossless(meta, w) && k !in meta.system
    ensures SameField(k, w.seen.data, w.before.data)
  {
    var a, b := Crud.UserPart(meta, w.seen.data), Crud.UserPart(meta, w.before.data);
    assert k in a <==> k in w.seen.data;
    assert k in b <==> k in w.before.data;
    if k in a { assert a[k] == w.seen.data[k] && b[k] == w.before.data[k]; }
  }

  lemma PlainPasses(rd: Readers, fields: seq<FieldRule>, data: Record, k: string)
    requires Plain(fields, k) && Validated(rd, fields, data).Some?
    ensures var stored := Validated(rd, fields, data).value;
            SameField(k, stored, data) && SameField(k, Recomputed(rd, fields, stored), data)
  {
    hide Recomputed;
    RecomputedKeeps(rd, fields, Validated(rd, fields, data).value, k);
  }

  lemma UpdateStoresFields(
    meta: Crud.Meta, rd: Readers, fields: seq<FieldRule>, rules: Crud.Rules, w: Crud.Write, k: string)
    requires rules == RulesOf(rd, fields, rules.guard, rules.validator, rules.setValue)
    requires Crud.WriteOk(meta, rules, w) && Crud.Lossless(meta, w) && w.req.Update?
    requires Plain(fields, k) && k !in meta.system
    ensures UpdateStores(meta, w, k) && !w.after.deleted && w.after.status == w.before.status
    ensures forall j :: j in w.req.payload ==> j !in meta.system
  {
    hide Validated, Recomputed, Plain;
    SeenIsReplaced(meta, w, k);
    var merged := Crud.Merge(meta, w.seen.data, w.req.payload);
    PlainPasses(rd, fields, merged, k);
    var d := Recomputed(rd, fields, Validated(rd, fields, merged).value);
    assert Crud.UpdateData(meta, rules, w.seen.data, w.req.payload) == Ok(d);
    assert w.after == Crud.UpdateWrite(meta, w.before, d);
    var user := Crud.UserPart(meta, d);
    assert k in user <==> k in d;
    if k in user { assert user[k] == d[k]; }
    assert k !in Crud.SystemPart(meta, w.before.data);
  }

  lemma TransitionStoresFields(
    meta: Crud.Meta, rd: Readers, fields: seq<FieldRule>, rules: Crud.Rules, w: Crud.Write, k: string)
      returns (t: Crud.Transition)
    requires rules == RulesOf(rd, fields, rules.guard, rules.validator, rules.setValue)
    requires Crud.WriteOk(meta, rules, w) && Crud.Lossless(meta, w) && w.req.Transit? && Crud.WellDeclared(meta)
    requires Plain(fields, k) && k !in meta.system
    ensures t in meta.transitions && t.action == w.req.action && Crud.StateOf(meta, w.before.data) == Some(t.from)
    ensures w.after.status == Some(t.to) && !w.after.deleted && TransitionStores(meta, rules, w, t, k)
  {
    hide Validated, Recomputed, Plain;
    SeenIsReplaced(meta, w, k);
    Crud.SameState(meta, w.seen.data, w.before.data);
    var out := Crud.TransitionData(meta, rules, w.seen.data, w.req.action, w.req.payload).value;
    t := out.1;
    var merged := (w.seen.data + w.req.payload)[meta.state.value := JStr(t.to)];
    PlainPasses(rd, fields, merged, k);
    var d := Validated(rd, fields, merged).value;
    assert out.0 == Crud.WithSetFields(rules, t, d);
    assert w.after.data == out.0;
  }

  /** Over every run, of every committed write whose call had read the version it expected, and every field that is
      neither computed, a reference nor a system field: what an update, a transition and a delete store in it. */
  lemma WritesStoreFields(
    meta: Crud.Meta, rd: Readers, fields: seq<FieldRule>, rules: Crud.Rules, events: seq<Crud.Event>,
    states: seq<Crud.State>, i: nat, a: nat, k: string)
    requires rules == RulesOf(rd, fields, rules.guard, rules.validator, rules.setValue)
    requires Crud.Run(meta, rules, events, states) && Crud.Starts(states[0]) && i <= |events| && Crud.WellDeclared(meta)
    requires a < |states[i].writes| && Plain(fields, k) && k !in meta.system
    requires Crud.Versioned(states[i].writes[a].req) ==>
               states[i].writes[a].req.expected <= states[i].writes[a].seen.version
    ensures var w := states[i].writes[a];
            match w.req
            case Update(_, payload) => UpdateStores(meta, w, k) && !w.after.deleted
            case Transit(_, action, payload) =>
              exists t :: t in meta.transitions && t.action == action
                          && Crud.StateOf(meta, w.before.data) == Some(t.from)
                          && w.after.status == Some(t.to) && TransitionStores(meta, rules, w, t, k)
            case Delete(_) => w.after.deleted && w.after.data == w.before.data
            case SetSystem(_) => false
  {
    hide Plain, RulesOf, UpdateStores, TransitionStores, Crud.StateOf;
    Crud.RunKeepsInv(meta, rules, events, states, i);
    Crud.WritesAreLossless(meta, rules, events, states, i);
    var w := states[i].writes[a];
    assert Crud.WriteOk(meta, rules, w);
    match w.req
    case Update(_, _) => UpdateStoresFields(meta, rd, fields, rules, w, k);
    case Transit(_, _, _) => var t := TransitionStoresFields(meta, rd, fields, rules, w, k);
    case _ =>
  }

  /** A transition leaves a system field alone: its set-field or its payload gives the stored value, or neither names
      the field and its value has not changed since the call read it. */
  predicate LeavesSystem(rules: Crud.Rules, w: Crud.Write, t: Crud.Transition, k: string)
    requires w.req.Transit?
  {
    if k in t.setFields then Holds(k, w.before.data, rules.setValue(t, k))
    else if k in w.req.payload then Holds(k, w.before.data, w.req.payload[k])
    else SameField(k, w.seen.data, w.before.data)
  }

  lemma TransitionKeepsSystem(
    meta: Crud.Meta, rd: Readers, fields: seq<FieldRule>, rules: Crud.Rules, w: Crud.Write, k: string)
      returns (t: Crud.Transition)
    requires rules == RulesOf(rd, fields, rules.guard, rules.validator, rules.setValue)
    requires Crud.WriteOk(meta, rules, w) && w.req.Transit? && Crud.WellDeclared(meta)
    requires Plain(fields, k) && k in meta.system
    ensures t in meta.transitions && t.action == w.req.action && Crud.StateOf(meta, w.seen.data) == Some(t.from)
    ensures SameField(k, w.before.data, w.after.data) <==> LeavesSystem(rules, w, t, k)
  {
    hide Validated, Recomputed, Plain;
    var out := Crud.TransitionData(meta, rules, w.seen.data, w.req.action, w.req.payload).value;
    t := out.1;
    var merged := (w.seen.data + w.req.payload)[meta.state.value := JStr(t.to)];
    PlainPasses(rd, fields, merged, k);
    assert out.0 == Crud.WithSetFields(rules, t, Validated(rd, fields, merged).value);
    assert w.after.data == out.0;
  }

  /** Over every run a step that is no system write leaves a system field alone, except that a transition does so if and
      only if what it writes there is what is stored. */
  lemma SystemFieldKeptExactly(
    meta: Crud.Meta, rd: Readers, fields: seq<FieldRule>, rules: Crud.Rules, events: seq<Crud.Event>,
    states: seq<Crud.State>, i: nat, k: string)
    requires rules == RulesOf(rd, fields, rules.guard, rules.validator, rules.setValue)
    requires Crud.Run(meta, rules, events, states) && Crud.Starts(states[0]) && i < |events| && Crud.WellDeclared(meta)
    requires Plain(fields, k) && k in meta.system && !events[i].SystemCommit?
    ensures var s, t := states[i], states[i + 1];
            if |t.writes| > |s.writes| && t.writes[|s.writes|].req.Transit? then
              var w := t.writes[|s.writes|];
              && w.before == s.row && w.after == t.row
              && exists tr :: tr in meta.transitions && tr.action == w.req.action
                              && Crud.StateOf(meta, w.seen.data) == Some(tr.from)
                              && (SameField(k, s.row.data, t.row.data) <==> LeavesSystem(rules, w, tr, k))
            else SameField(k, s.row.data, t.row.data)
  {
    hide Plain, RulesOf, LeavesSystem, Crud.StateOf, Crud.Outcome, Crud.SystemPart;
    var s, t := states[i], states[i + 1];
    assert Crud.Step(meta, rules, events[i], s, t);
    if t.writes != s.writes {
      Crud.RunKeepsInv(meta, rules, events, states, i + 1);
      var w := t.writes[|s.writes|];
      assert Crud.WriteOk(meta, rules, w);
      match w.req
      case Update(_, _) => UpdateKeepsField(meta, rules, w, k);
      case Transit(_, _, _) => var tr := TransitionKeepsSystem(meta, rd, fields, rules, w, k);
      case Delete(_) => DeleteKeepsData(meta, rules, w);
    }
  }

  lemma UpdateKeepsField(meta: Crud.Meta, rules: Crud.Rules, w: Crud.Write, k: string)
    requires Crud.WriteOk(meta, rules, w) && w.req.Update? && k in meta.system
    ensures SameField(k, w.before.data, w.after.data)
  {
    Crud.UpdateKeepsSystem(meta, rules, w);
    var a, b := Crud.SystemPart(meta, w.before.data), Crud.SystemPart(meta, w.after.data);
    assert (k in a <==> k in w.before.data) && (k in b <==> k in w.after.data);
    if k in a { assert a[k] == w.before.data[k] && b[k] == w.after.data[k]; }
  }

  lemma DeleteKeepsData(meta: Crud.Meta, rules: Crud.Rules, w: Crud.Write)
    requires Crud.WriteOk(meta, rules, w) && w.req.Delete?
    ensures w.after.data == w.before.data
  {
  }

  function ComputedState(): FieldRule { FieldRule("state", M.KindString, false, [], None, None, Some("done")) }

  /** A state field computed as the constant text "done": an update moves the state, without any declared transition. */
  lemma ComputedStateExample(rd: Readers, rules: Crud.Rules) returns (events: seq<Crud.Event>, states: seq<Crud.State>)
    requires rules == RulesOf(rd, [ComputedState()], rules.guard, rules.validator, rules.setValue)
    ensures var meta := Crud.Meta({}, Some("state"), []);
            && Crud.WellDeclared(meta) && Crud.Run(meta, rules, events, states) && Crud.Starts(states[0])
            && Crud.StateOf(meta, states[0].row.data) == Some("draft")
            && |events| == 3 && Crud.StateOf(meta, states[3].row.data) == Some("done")
  {
    var fields, d := [ComputedState()], Crud.StateIs("state", "draft");
    assert Stored(rd, fields, d) == d;
    assert Accepts(rd, fields[0], d);
    DoneIsPlainText(rd, d);
    assert fields[..0] == [];
    assert Recomputed(rd, [], d) == d;
    assert Recomputed(rd, fields, d) == Crud.StateIs("state", "done");
    assert "draft"[1] != "done"[1];
    events, states := Crud.ComputedStateMoves(rules, "state", "draft", "done");
  }

  lemma DoneIsPlainText(rd: Readers, d: Record)
    ensures Render(rd, "done", d) == JStr("done")
  {
    var resolve := (name: string) => TextOf(rd, d, name);
    assert "done"[1..] == "one" && "one"[1..] == "ne" && "ne"[1..] == "e" && "e"[1..] == "";
    assert Rendered("e", resolve) == "e";
    assert Rendered("ne", resolve) == "ne";
    assert Rendered("one", resolve) == "one";
  }
}
