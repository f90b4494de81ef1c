/** Substring search: the ILIKE pattern built from a user's value matches exactly the texts that contain
    the value, so `%`, `_` and `\` in the value are never wildcards. */
module Substring {
  import opened Sql

  predicate IsMeta(c: char) { c == '\\' || c == '%' || c == '_' }

  function Escape(value: string): string {
    if |value| == 0 then ""
    else (if IsMeta(value[0]) then ['\\', value[0]] else [value[0]]) + Escape(value[1..])
  }

  function IlikePattern(value: string): string { "%" + Escape(value) + "%" }

  predicate OccursAt(text: string, k: nat, value: string) {
    k + |value| <= |text| && text[k..k + |value|] == value
  }

  predicate Contains(text: string, value: string) {
    exists k :: 0 <= k <= |text| && OccursAt(text, k, value)
  }

  /** jqlIlikePattern: one pass over the value, a backslash before each special character. */
  method JqlIlikePattern(value: string) returns (pattern: string)
    ensures pattern == IlikePattern(value)
  {
    var b := "";
    var i := 0;
    while i < |value|
      invariant 0 <= i <= |value|
      invariant b + Escape(value[i..]) == Escape(value)
    {
      var c := value[i];
      ghost var before := b;
      if c == '\\' || c == '%' || c == '_' {
        b := b + ['\\'];
      }
      b := b + [c];
      assert value[i..][1..] == value[i + 1..];
      assert before + Escape(value[i..]) == b + Escape(value[i + 1..]);
      i := i + 1;
    }
    assert value[|value|..] == "";
    pattern := "%" + b + "%";
  }

  /** ilikeEscape, the planner's own copy of the loop. */
  method IlikeEscape(value: string) returns (pattern: string)
    ensures pattern == IlikePattern(value)
  {
    pattern := "%";
    for i := 0 to |value|
      invariant pattern + Escape(value[i..]) == "%" + Escape(value)
    {
      var c := value[i];
      ghost var before := pattern;
      pattern := pattern + (if c == '\\' || c == '%' || c == '_' then ['\\', c] else [c]);
      assert value[i..][1..] == value[i + 1..];
      assert before + Escape(value[i..]) == pattern + Escape(value[i + 1..]);
    }
    assert value[|value|..] == "";
    pattern := pattern + "%";
  }

  /** An escaped literal followed by `rest` matches the texts that start with the literal. */
  lemma {:induction false} LikeLiteral(text: string, value: string, rest: string)
    ensures Like(text, Escape(value) + rest) <==> (value <= text && Like(text[|value|..], rest))
    decreases |value|
  {
    if |value| == 0 {
      assert Escape(value) + rest == rest && text[0..] == text;
    } else {
      var head := if IsMeta(value[0]) then ['\\', value[0]] else [value[0]];
      var tail := Escape(value[1..]) + rest;
      assert Escape(value) + rest == head + tail;
      assert (head + tail)[|head|..] == tail;
      if |text| > 0 && text[0] == value[0] {
        LikeLiteral(text[1..], value[1..], rest);
        assert value <= text <==> value[1..] <= text[1..] by {
          assert value == [value[0]] + value[1..] && text == [text[0]] + text[1..];
        }
        if value <= text { assert text[1..][|value[1..]|..] == text[|value|..]; }
      } else {
        assert !(value <= text);
      }
    }
  }

  lemma {:induction false} LikePercent(text: string, pat: string)
    ensures Like(text, "%" + pat) <==> exists k :: 0 <= k <= |text| && Like(text[k..], pat)
    decreases |text|
  {
    var whole := "%" + pat;
    assert whole[1..] == pat;
    assert text[0..] == text;
    if |text| > 0 {
      LikePercent(text[1..], pat);
      forall k | 0 <= k <= |text[1..]| ensures text[1..][k..] == text[k + 1..] { }
      if Like(text[1..], whole) {
        var k :| 0 <= k <= |text[1..]| && Like(text[1..][k..], pat);
        assert Like(text[k + 1..], pat);
      }
      if exists k :: 0 <= k <= |text| && Like(text[k..], pat) {
        var k :| 0 <= k <= |text| && Like(text[k..], pat);
        if k > 0 { assert Like(text[1..][k - 1..], pat); }
      }
    }
  }

  lemma {:induction false} LikeAnything(text: string)
    ensures Like(text, "%")
    decreases |text|
  {
    assert "%"[1..] == "";
    if |text| > 0 { LikeAnything(text[1..]); }
  }

  /** The pattern matches a text exactly when the value occurs in it. */
  lemma PatternIsLiteral(text: string, value: string)
    ensures Like(text, IlikePattern(value)) <==> Contains(text, value)
  {
    var pat := Escape(value) + "%";
    assert IlikePattern(value) == "%" + pat;
    LikePercent(text, pat);
    forall k | 0 <= k <= |text|
      ensures Like(text[k..], pat) <==> OccursAt(text, k, value)
    {
      LikeLiteral(text[k..], value, "%");
      if value <= text[k..] {
        LikeAnything(text[k..][|value|..]);
        assert text[k..][..|value|] == text[k..k + |value|];
      }
      if k + |value| <= |text| { assert text[k..][..|value|] == text[k..k + |value|]; }
    }
  }

  /** Case folding leaves the three special characters alone and produces none of them. */
  ghost predicate FoldKeepsMeta(db: Db) {
    forall c: char :: (IsMeta(c) ==> db.fold(c) == c) && (!IsMeta(c) ==> !IsMeta(db.fold(c)))
  }

  lemma {:induction false} FoldOfConcat(db: Db, a: string, b: string)
    ensures Fold(db, a + b) == Fold(db, a) + Fold(db, b)
    decreases |a|
  {
    if |a| == 0 {
      assert a + b == b;
    } else {
      assert (a + b)[1..] == a[1..] + b;
      FoldOfConcat(db, a[1..], b);
    }
  }

  lemma {:induction false} FoldOfEscape(db: Db, value: string)
    requires FoldKeepsMeta(db)
    ensures Fold(db, Escape(value)) == Escape(Fold(db, value))
    decreases |value|
  {
    if |value| > 0 {
      var head := if IsMeta(value[0]) then ['\\', value[0]] else [value[0]];
      FoldOfEscape(db, value[1..]);
      FoldOfConcat(db, head, Escape(value[1..]));
      assert Fold(db, value)[1..] == Fold(db, value[1..]);
      if IsMeta(value[0]) {
        assert IsMeta('\\') && head[1..] == [value[0]] && head[1..][1..] == "";
      } else {
        assert head[1..] == "";
      }
    }
  }

  /** ILIKE on the built pattern is literal containment up to case folding, and unknown on NULL. */
  lemma IlikeIsContainment(db: Db, v: Value, value: string)
    requires FoldKeepsMeta(db)
    ensures IlikeValue(db, v, Scalar(IlikePattern(value))) ==
            if v.Scalar? then Of(Contains(Fold(db, v.s), Fold(db, value))) else Unknown
  {
    if v.Scalar? {
      FoldOfEscape(db, value);
      FoldOfConcat(db, "%" + Escape(value), "%");
      FoldOfConcat(db, "%", Escape(value));
      assert IsMeta('%') && "%"[1..] == "";
      assert Fold(db, "%") == "%";
      PatternIsLiteral(Fold(db, v.s), Fold(db, value));
    }
  }
}
