/** Making what was typed and what the database echoes back comparable: no casts, quotes or parentheses,
    lower case, single blanks. */
module Normalize {
  import opened Prelude

  predicate IsAlnum(c: char) { ('a' <= c <= 'z') || ('A' <= c <= 'Z') || ('0' <= c <= '9') }

  predicate CastAt(s: string, i: nat) { i + 1 < |s| && s[i] == ':' && s[i + 1] == ':' }

  function SkipName(s: string, i: nat): (j: nat)
    requires i <= |s|
    ensures i <= j <= |s|
    decreases |s| - i
  {
    if i < |s| && (IsAlnum(s[i]) || s[i] == '_') then SkipName(s, i + 1) else i
  }

  /** Past the closing parenthesis that matches `depth` open ones, or the end. */
  function SkipParens(s: string, i: nat, depth: nat): (j: nat)
    requires i <= |s|
    ensures i <= j <= |s|
    decreases |s| - i
  {
    if i == |s| || depth == 0 then i
    else SkipParens(s, i + 1, if s[i] == '(' then depth + 1 else if s[i] == ')' then depth - 1 else depth)
  }

  /** Past `::type` or `::type(args)` at `i`. */
  function SkipCast(s: string, i: nat): (j: nat)
    requires CastAt(s, i)
    ensures i + 2 <= j <= |s|
  {
    var j := SkipName(s, i + 2);
    if j < |s| && s[j] == '(' then SkipParens(s, j + 1, 1) else j
  }

  function StripFrom(s: string, i: nat): string
    requires i <= |s|
    decreases |s| - i
  {
    if i == |s| then ""
    else if CastAt(s, i) then StripFrom(s, SkipCast(s, i))
    else [s[i]] + StripFrom(s, i + 1)
  }

  function StripTypeCasts(s: string): string { StripFrom(s, 0) }

  method StripCasts(expr: string) returns (out: string)
    ensures out == StripTypeCasts(expr)
  {
    out := "";
    var i := 0;
    while i < |expr|
      invariant 0 <= i <= |expr|
      invariant StripTypeCasts(expr) == out + StripFrom(expr, i)
    {
      if expr[i] == ':' && i + 1 < |expr| && expr[i + 1] == ':' {
        ghost var start := i;
        i := i + 2;
        while i < |expr| && (IsAlnum(expr[i]) || expr[i] == '_')
          invariant start + 2 <= i <= |expr|
          invariant SkipName(expr, start + 2) == SkipName(expr, i)
        {
          i := i + 1;
        }
        if i < |expr| && expr[i] == '(' {
          var depth := 1;
          i := i + 1;
          while i < |expr| && depth > 0
            invariant start + 2 <= i <= |expr| && depth >= 0
            invariant SkipCast(expr, start) == SkipParens(expr, i, depth)
          {
            if expr[i] == '(' { depth := depth + 1; } else if expr[i] == ')' { depth := depth - 1; }
            i := i + 1;
          }
        }
        continue;
      }
      out := out + [expr[i]];
      i := i + 1;
    }
  }

  /** What is left after stripping holds no cast marker, so stripping again changes nothing. */
  lemma {:induction false} StrippedHasNoCast(s: string, i: nat)
    requires i <= |s|
    ensures forall k: nat :: !CastAt(StripFrom(s, i), k)
    ensures StripFrom(s, i) != "" && StripFrom(s, i)[0] == ':' && i < |s| && !CastAt(s, i) ==> s[i] == ':'
    decreases |s| - i
  {
    if i < |s| {
      if CastAt(s, i) {
        StrippedHasNoCast(s, SkipCast(s, i));
      } else {
        StrippedHasNoCast(s, i + 1);
        var rest := StripFrom(s, i + 1);
        if s[i] == ':' { FirstKept(s, i + 1); }
        forall k: nat ensures !CastAt([s[i]] + rest, k) {
          if k > 0 { assert !CastAt(rest, k - 1); }
        }
      }
    }
  }

  /** The character after a kept colon is kept too, and it is not a colon. */
  lemma FirstKept(s: string, i: nat)
    requires 0 < i <= |s| && s[i - 1] == ':' && !CastAt(s, i - 1)
    ensures i < |s| ==> StripFrom(s, i) != "" && StripFrom(s, i)[0] == s[i] != ':'
    ensures i == |s| ==> StripFrom(s, i) == ""
  {
  }

  lemma {:induction false} StripPlain(s: string, i: nat)
    requires i <= |s| && forall k: nat :: !CastAt(s, k)
    ensures StripFrom(s, i) == s[i..]
    decreases |s| - i
  {
    if i < |s| {
      StripPlain(s, i + 1);
      assert s[i..] == [s[i]] + s[i + 1..];
    }
  }

  lemma StripTwice(s: string)
    ensures StripTypeCasts(StripTypeCasts(s)) == StripTypeCasts(s)
  {
    StrippedHasNoCast(s, 0);
    StripPlain(StripTypeCasts(s), 0);
  }

  // ---------------------------------------------------------------- the whole normalization

  function Lower(c: char): char { if 'A' <= c <= 'Z' then c - 'A' + 'a' else c }

  predicate IsBlank(c: char) { c == ' ' || ('\t' <= c <= '\r') }

  /** Lower-case, without quotes and parentheses. */
  function Bare(s: string): string {
    if |s| == 0 then ""
    else if s[0] == '"' || s[0] == '(' || s[0] == ')' then Bare(s[1..])
    else [Lower(s[0])] + Bare(s[1..])
  }

  /** The words of `s` with one blank between them; `word` is the word being collected. */
  function Words(s: string, word: string): seq<string> {
    if |s| == 0 then (if word == "" then [] else [word])
    else if IsBlank(s[0]) then (if word == "" then [] else [word]) + Words(s[1..], "")
    else Words(s[1..], word + [s[0]])
  }

  function Fields(s: string): seq<string> { Words(s, "") }

  function NormalizeExpr(expr: string): string { Join(Fields(Bare(StripTypeCasts(expr))), " ") }

  /** The builder loop that drops quotes and parentheses. */
  method BareText(s: string) returns (bare: string)
    ensures bare == Bare(s)
  {
    bare := "";
    var i := 0;
    while i < |s|
      invariant 0 <= i <= |s|
      invariant Bare(s) == bare + Bare(s[i..])
    {
      assert s[i..][1..] == s[i + 1..];
      if s[i] != '"' && s[i] != '(' && s[i] != ')' { bare := bare + [Lower(s[i])]; }
      i := i + 1;
    }
  }

  // ---------------------------------------------------------------- what the normal form does not see

  predicate Punctuation(c: char) { c in {'"', '(', ')'} }

  ghost predicate NoCast(s: string) { forall k: nat :: !CastAt(s, k) }

  lemma PlainNormal(s: string)
    requires NoCast(s)
    ensures NormalizeExpr(s) == Join(Fields(Bare(s)), " ")
  {
    StripPlain(s, 0);
  }

  lemma {:induction false} BareOfSum(a: string, b: string)
    ensures Bare(a + b) == Bare(a) + Bare(b)
    decreases |a|
  {
    if |a| == 0 {
      assert a + b == b;
    } else {
      assert (a + b)[1..] == a[1..] + b;
      BareOfSum(a[1..], b);
    }
  }

  /** A quote or a parenthesis more or less makes no difference. */
  lemma PunctuationIgnored(a: string, c: char, b: string)
    requires Punctuation(c) && NoCast(a + [c] + b) && NoCast(a + b)
    ensures NormalizeExpr(a + [c] + b) == NormalizeExpr(a + b)
  {
    PlainNormal(a + [c] + b);
    PlainNormal(a + b);
    BareOfSum(a + [c], b);
    BareOfSum(a, [c]);
    BareOfSum(a, b);
    assert [c][1..] == "" && Bare([c]) == Bare([c][1..]);
    assert Bare(a) + "" + Bare(b) == Bare(a) + Bare(b);
  }

  /** The text without its double quotes, as the database echoes an identifier that needs none. */
  function Unquoted(s: string): string {
    if |s| == 0 then "" else (if s[0] == '"' then "" else [s[0]]) + Unquoted(s[1..])
  }

  lemma {:induction false} BareOfUnquoted(s: string)
    ensures Bare(Unquoted(s)) == Bare(s)
  {
    if |s| > 0 {
      BareOfUnquoted(s[1..]);
      if s[0] != '"' {
        assert Unquoted(s)[1..] == Unquoted(s[1..]);
      } else {
        assert Unquoted(s) == Unquoted(s[1..]);
      }
    }
  }

  lemma QuotesIgnored(s: string)
    requires NoCast(s) && NoCast(Unquoted(s))
    ensures NormalizeExpr(Unquoted(s)) == NormalizeExpr(s)
  {
    PlainNormal(s);
    PlainNormal(Unquoted(s));
    BareOfUnquoted(s);
  }

  // letters

  predicate SameLetter(c: char, d: char) {
    || c == d
    || ('a' <= c <= 'z' && c as int == d as int + 32)
    || ('a' <= d <= 'z' && d as int == c as int + 32)
  }

  predicate SameLetters(s: string, t: string) { |s| == |t| && forall i :: 0 <= i < |s| ==> SameLetter(s[i], t[i]) }

  lemma {:induction false} SkipNameByLetters(s: string, t: string, i: nat)
    requires SameLetters(s, t) && i <= |s|
    ensures SkipName(s, i) == SkipName(t, i)
    decreases |s| - i
  {
    if i < |s| { SkipNameByLetters(s, t, i + 1); }
  }

  lemma {:induction false} SkipParensByLetters(s: string, t: string, i: nat, depth: nat)
    requires SameLetters(s, t) && i <= |s|
    ensures SkipParens(s, i, depth) == SkipParens(t, i, depth)
    decreases |s| - i
  {
    if i < |s| && depth > 0 {
      SkipParensByLetters(s, t, i + 1, if s[i] == '(' then depth + 1 else if s[i] == ')' then depth - 1 else depth);
    }
  }

  lemma CastByLetters(s: string, t: string, i: nat)
    requires SameLetters(s, t)
    ensures CastAt(s, i) <==> CastAt(t, i)
    ensures CastAt(s, i) ==> SkipCast(s, i) == SkipCast(t, i)
  {
    if CastAt(s, i) {
      var j := SkipName(s, i + 2);
      SkipNameByLetters(s, t, i + 2);
      if j < |s| && s[j] == '(' { SkipParensByLetters(s, t, j + 1, 1); }
    }
  }

  lemma {:induction false} StripByLetters(s: string, t: string, i: nat)
    requires SameLetters(s, t) && i <= |s|
    ensures SameLetters(StripFrom(s, i), StripFrom(t, i))
    decreases |s| - i
  {
    hide CastAt, SkipCast, SameLetter;
    if i < |s| {
      CastByLetters(s, t, i);
      StripByLetters(s, t, if CastAt(s, i) then SkipCast(s, i) else i + 1);
    }
  }

  lemma {:induction false} BareByLetters(s: string, t: string)
    requires SameLetters(s, t)
    ensures Bare(s) == Bare(t)
  {
    if |s| > 0 {
      assert SameLetter(s[0], t[0]);
      assert SameLetters(s[1..], t[1..]) by {
        forall i | 0 <= i < |s[1..]| ensures SameLetter(s[1..][i], t[1..][i]) { assert SameLetter(s[i + 1], t[i + 1]); }
      }
      BareByLetters(s[1..], t[1..]);
    }
  }

  /** Upper or lower case makes no difference anywhere in a text. */
  lemma CaseIgnored(s: string, t: string)
    requires SameLetters(s, t)
    ensures NormalizeExpr(s) == NormalizeExpr(t)
  {
    StripByLetters(s, t, 0);
    BareByLetters(StripTypeCasts(s), StripTypeCasts(t));
  }

  // blanks

  lemma {:induction false} WordsOfSum(a: string, x: char, b: string, word: string)
    requires IsBlank(x)
    ensures Words(a + [x] + b, word) == Words(a, word) + Fields(b)
    decreases |a|
  {
    var s := a + [x] + b;
    if |a| == 0 {
      assert s[1..] == b && s[0] == x;
    } else {
      assert s[1..] == a[1..] + [x] + b && s[0] == a[0];
      WordsOfSum(a[1..], x, b, if IsBlank(a[0]) then "" else word + [a[0]]);
    }
  }

  predicate Blank(s: string) { forall i :: 0 <= i < |s| ==> IsBlank(s[i]) }

  lemma {:induction false} FieldsAcross(a: string, blanks: string, b: string)
    requires |blanks| > 0 && Blank(blanks)
    ensures Fields(a + blanks + b) == Fields(a) + Fields(b)
    decreases |blanks|
  {
    var rest := blanks[1..];
    assert a + blanks + b == a + [blanks[0]] + (rest + b);
    WordsOfSum(a, blanks[0], rest + b, "");
    if |rest| > 0 {
      assert rest + b == "" + rest + b;
      FieldsAcross("", rest, b);
    } else {
      assert rest + b == b;
    }
  }

  lemma {:induction false} BareOfBlank(s: string)
    requires Blank(s)
    ensures Bare(s) == s
  {
    if |s| > 0 {
      assert Blank(s[1..]);
      BareOfBlank(s[1..]);
    }
  }

  lemma FieldsOfBareAcross(a: string, blanks: string, b: string)
    requires |blanks| > 0 && Blank(blanks)
    ensures Fields(Bare(a + blanks + b)) == Fields(Bare(a)) + Fields(Bare(b))
  {
    BareOfSum(a + blanks, b);
    BareOfSum(a, blanks);
    BareOfBlank(blanks);
    FieldsAcross(Bare(a), blanks, Bare(b));
  }

  /** How long a run of blanks is, and which blanks it is made of, makes no difference. */
  lemma BlanksIgnored(a: string, x: string, y: string, b: string)
    requires |x| > 0 && |y| > 0 && Blank(x) && Blank(y) && NoCast(a + x + b) && NoCast(a + y + b)
    ensures NormalizeExpr(a + x + b) == NormalizeExpr(a + y + b)
  {
    PlainNormal(a + x + b);
    PlainNormal(a + y + b);
    FieldsOfBareAcross(a, x, b);
    FieldsOfBareAcross(a, y, b);
  }

  /** Blanks around a text make no difference. */
  lemma TrimIgnored(x: string, s: string, y: string)
    requires Blank(x) && Blank(y) && NoCast(x + s + y) && NoCast(s)
    ensures NormalizeExpr(x + s + y) == NormalizeExpr(s)
  {
    PlainNormal(x + s + y);
    PlainNormal(s);
    if |x| > 0 {
      assert "" + x + (s + y) == x + s + y;
      FieldsOfBareAcross("", x, s + y);
      assert Fields(Bare("")) == [] && [] + Fields(Bare(s + y)) == Fields(Bare(s + y));
    } else {
      assert x + s + y == s + y;
    }
    if |y| > 0 {
      assert s + y + "" == s + y;
      FieldsOfBareAcross(s, y, "");
      assert Fields(Bare("")) == [];
      assert Fields(Bare(s)) + [] == Fields(Bare(s));
    } else {
      assert s + y == s;
    }
  }

  // casts

  predicate IsName(s: string) { forall i :: 0 <= i < |s| ==> IsAlnum(s[i]) || s[i] == '_' }

  lemma {:induction false} SkipsName(s: string, i: nat, j: nat)
    requires i <= j <= |s| && IsName(s[i..j]) && (j < |s| ==> !IsAlnum(s[j]) && s[j] != '_')
    ensures SkipName(s, i) == j
    decreases j - i
  {
    if i < j {
      assert s[i..j][0] == s[i];
      assert IsName(s[i + 1..j]) by {
        assert s[i + 1..j] == s[i..j][1..];
      }
      SkipsName(s, i + 1, j);
    }
  }

  /** Open parentheses beyond the closed ones. */
  function Net(s: string): int {
    if |s| == 0 then 0
    else Net(s[..|s| - 1]) + (if s[|s| - 1] == '(' then 1 else if s[|s| - 1] == ')' then -1 else 0)
  }

  predicate Balanced(s: string) { Net(s) == 0 && forall i :: 0 <= i <= |s| ==> Net(s[..i]) >= 0 }

  lemma {:induction false} SkipsBalanced(s: string, start: nat, args: string, i: nat)
    requires Balanced(args) && start + |args| < |s| && s[start..start + |args|] == args
    requires s[start + |args|] == ')' && i <= |args|
    ensures SkipParens(s, start + i, (1 + Net(args[..i])) as nat) == start + |args| + 1
    decreases |args| - i
  {
    assert Net(args[..i]) >= 0;
    if i < |args| {
      assert args[..i + 1][..i] == args[..i] && s[start + i] == args[i];
      assert Net(args[..i + 1]) >= 0;
      SkipsBalanced(s, start, args, i + 1);
    } else {
      assert args[..i] == args;
    }
  }

  lemma {:induction false} StripKeeps(s: string, i: nat, j: nat)
    requires i <= j <= |s| && forall k: nat :: i <= k < j ==> !CastAt(s, k)
    ensures StripFrom(s, i) == s[i..j] + StripFrom(s, j)
    decreases j - i
  {
    if i < j {
      StripKeeps(s, i + 1, j);
      assert s[i..j] == [s[i]] + s[i + 1..j];
      var rest := StripFrom(s, j);
      assert StripFrom(s, i) == [s[i]] + StripFrom(s, i + 1);
      hide StripFrom;
      assert [s[i]] + (s[i + 1..j] + rest) == ([s[i]] + s[i + 1..j]) + rest;
    } else {
      assert s[i..j] == "";
      hide StripFrom;
    }
  }

  lemma {:induction false} StripTail(s: string, i: nat, j: nat)
    requires i <= |s| && j <= |s[i..]|
    ensures StripFrom(s[i..], j) == StripFrom(s, i + j)
    decreases |s| - i - j
  {
    hide SkipCast, CastAt;
    if j < |s| - i {
      CastAtTail(s, i, j);
      if CastAt(s[i..], j) {
        SkipCastTail(s, i, j);
        StripTail(s, i, SkipCast(s[i..], j));
      } else {
        StripTail(s, i, j + 1);
      }
    }
  }

  lemma CastAtTail(s: string, i: nat, j: nat)
    requires i <= |s|
    ensures CastAt(s[i..], j) <==> CastAt(s, i + j)
  {
  }

  lemma SkipCastTail(s: string, i: nat, j: nat)
    requires i <= |s| && CastAt(s[i..], j)
    ensures CastAt(s, i + j) && SkipCast(s, i + j) == i + SkipCast(s[i..], j)
  {
    SkipNameTail(s, i, j + 2);
    var n := SkipName(s[i..], j + 2);
    if n < |s[i..]| && s[i..][n] == '(' { SkipParensTail(s, i, n + 1, 1); }
  }

  lemma {:induction false} SkipNameTail(s: string, i: nat, j: nat)
    requires i <= |s| && j <= |s| - i
    ensures SkipName(s, i + j) == i + SkipName(s[i..], j)
    decreases |s| - i - j
  {
    if j < |s| - i { SkipNameTail(s, i, j + 1); }
  }

  lemma {:induction false} SkipParensTail(s: string, i: nat, j: nat, depth: nat)
    requires i <= |s| && j <= |s| - i
    ensures SkipParens(s, i + j, depth) == i + SkipParens(s[i..], j, depth)
    decreases |s| - i - j
  {
    if j < |s| - i && depth > 0 {
      var c := s[i..][j];
      assert c == s[i + j];
      SkipParensTail(s, i, j + 1, if c == '(' then depth + 1 else if c == ')' then depth - 1 else depth);
    }
  }

  /** What may follow a cast without arguments, so that the type's name ends there. */
  predicate EndsName(b: string) { |b| > 0 ==> !IsAlnum(b[0]) && b[0] != '_' && b[0] != '(' }

  /** `::type` or `::type(args)` */
  function CastText(ty: string, args: Option<string>): string {
    "::" + ty + match args { case Some(x) => "(" + x + ")" case None => "" }
  }

  predicate IsCast(ty: string, args: Option<string>, b: string) {
    IsName(ty) && match args { case Some(x) => Balanced(x) case None => EndsName(b) }
  }

  /** Where a cast ends, by what follows the name of its type. */
  lemma SkipsCastText(s: string, i: nat, ty: string, tail: string)
    requires IsName(ty) && i <= |s| && s[i..] == "::" + ty + tail
    requires |tail| > 0 ==> !IsAlnum(tail[0]) && tail[0] != '_'
    ensures CastAt(s, i) && SkipName(s, i + 2) == i + 2 + |ty| && s[i + 2 + |ty|..] == tail
  {
    hide SkipName, IsName;
    assert s[i..][0] == ':' && s[i..][1] == ':';
    var j := i + 2 + |ty|;
    assert s[i..][2..2 + |ty|] == ty && s[i..][2 + |ty|..] == tail;
    assert s[i + 2..j] == ty && s[j..] == tail;
    if |tail| > 0 { assert s[j] == tail[0]; }
    SkipsName(s, i + 2, j);
  }

  lemma SkipsArguments(s: string, j: nat, x: string, b: string)
    requires Balanced(x) && j <= |s| && s[j..] == "(" + x + ")" + b
    ensures j < |s| && s[j] == '(' && SkipParens(s, j + 1, 1) == j + 2 + |x| && s[j + 2 + |x|..] == b
  {
    hide SkipParens, Net;
    var t := s[j..];
    assert t[0] == '(' && t[1..1 + |x|] == x && t[1 + |x|] == ')' && t[2 + |x|..] == b;
    assert s[j + 1..j + 1 + |x|] == x && s[j + 1 + |x|] == ')' && s[j + 2 + |x|..] == b;
    NoneOpen(x);
    SkipsBalanced(s, j + 1, x, 0);
  }

  lemma SkipsCast(a: string, ty: string, args: Option<string>, b: string)
    requires IsCast(ty, args, b)
    ensures var s := a + CastText(ty, args) + b;
            CastAt(s, |a|) && SkipCast(s, |a|) == |a| + |CastText(ty, args)| && s[|a| + |CastText(ty, args)|..] == b
  {
    hide SkipName, SkipParens, IsName, Balanced;
    var s := a + CastText(ty, args) + b;
    match args
    case None =>
      assert s[|a|..] == "::" + ty + b;
      SkipsCastText(s, |a|, ty, b);
    case Some(x) =>
      assert s[|a|..] == "::" + ty + ("(" + x + ")" + b);
      SkipsCastText(s, |a|, ty, "(" + x + ")" + b);
      SkipsArguments(s, |a| + 2 + |ty|, x, b);
  }

  lemma NoneOpen(s: string)
    ensures Net(s[..0]) == 0
  {
  }

  lemma CastStripped(a: string, ty: string, args: Option<string>, b: string)
    requires IsCast(ty, args, b) && NoCast(a) && (|a| > 0 ==> a[|a| - 1] != ':')
    ensures StripTypeCasts(a + CastText(ty, args) + b) == a + StripTypeCasts(b)
  {
    hide IsCast, SkipCast, CastText;
    var s := a + CastText(ty, args) + b;
    SkipsCast(a, ty, args, b);
    forall k: nat | k < |a| ensures !CastAt(s, k) { assert !CastAt(a, k); }
    StripKeeps(s, 0, |a|);
    assert s[0..|a|] == a;
    StripTail(s, |a| + |CastText(ty, args)|, 0);
  }

  /** A cast, with or without arguments, makes no difference, wherever it stands and whatever follows it. */
  lemma CastIgnored(a: string, ty: string, args: Option<string>, b: string)
    requires IsCast(ty, args, b) && NoCast(a) && (|a| > 0 ==> a[|a| - 1] != ':')
    ensures StripTypeCasts(a + CastText(ty, args) + b) == a + StripTypeCasts(b)
    ensures NoCast(b) && NoCast(a + b) ==> NormalizeExpr(a + CastText(ty, args) + b) == NormalizeExpr(a + b)
  {
    hide IsCast, CastText, StripFrom, Bare;
    CastStripped(a, ty, args, b);
    if NoCast(b) && NoCast(a + b) {
      StripPlain(b, 0);
      StripPlain(a + b, 0);
    }
  }

  // ---------------------------------------------------------------- what it keeps

  /** Lower-case words with one blank between them, without punctuation or casts. */
  ghost predicate IsNormal(s: string) {
    && NoCast(s)
    && (forall i :: 0 <= i < |s| ==> !Punctuation(s[i]) && !('A' <= s[i] <= 'Z') && (IsBlank(s[i]) ==> s[i] == ' '))
    && (forall i :: 0 <= i < |s| && s[i] == ' ' ==> 0 < i < |s| - 1 && s[i + 1] != ' ')
  }

  lemma {:induction false} BareOfPlain(s: string)
    requires forall i :: 0 <= i < |s| ==> !Punctuation(s[i]) && !('A' <= s[i] <= 'Z')
    ensures Bare(s) == s
  {
    if |s| > 0 { BareOfPlain(s[1..]); }
  }

  lemma {:induction false} JoinedWords(s: string, word: string)
    requires forall i :: 0 <= i < |s| && IsBlank(s[i]) ==> s[i] == ' '
    requires forall i :: 0 <= i < |s| && s[i] == ' ' ==> i < |s| - 1 && s[i + 1] != ' '
    requires |s| > 0 && s[0] == ' ' ==> word != ""
    ensures Join(Words(s, word), " ") == word + s
    decreases |s|
  {
    if |s| > 0 {
      if s[0] == ' ' {
        var rest := Words(s[1..], "");
        JoinedWords(s[1..], "");
        SomeWord(s[1..], "");
        assert Words(s, word) == [word] + rest && ([word] + rest)[1..] == rest;
        assert s == " " + s[1..];
      } else {
        JoinedWords(s[1..], word + [s[0]]);
        assert word + s == (word + [s[0]]) + s[1..];
      }
    }
  }

  lemma {:induction false} SomeWord(s: string, word: string)
    requires word != "" || (|s| > 0 && !IsBlank(s[0]))
    ensures |Words(s, word)| > 0
  {
    if |s| > 0 && !IsBlank(s[0]) { SomeWord(s[1..], word + [s[0]]); }
  }

  /** A text in normal form is its own, so different ones stay apart. */
  lemma NormalIsKept(s: string)
    requires IsNormal(s)
    ensures NormalizeExpr(s) == s
  {
    PlainNormal(s);
    BareOfPlain(s);
    JoinedWords(s, "");
  }
}
