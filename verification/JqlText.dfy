/** The text round trip: tokenizing and then parsing the parenthesised, escaped rendering of a query gives
    the query back. */
module JqlText {
  import opened Prelude
  import opened Utf8
  import opened Jql
  import opened JqlLexer
  import opened JqlParser

  // ---------------------------------------------------------------- rendering

  /** A name the tokenizer reads back as one identifier. */
  predicate FieldName(f: string) {
    |f| > 0 && (IsAlpha(f[0]) || f[0] == '_') && (forall k :: 0 <= k < |f| ==> IsWordChar(f[k])) && Keyword(f) == None
  }

  predicate Renderable(e: Jql)
    decreases e, 1
  {
    match e
    case JCompare(f, _, _) => FieldName(f)
    case JIn(f, _, values) => FieldName(f) && |values| >= 1
    case JIsEmpty(f, _) => FieldName(f)
    case JAnd(parts) => |parts| >= 2 && AllRenderable(parts)
    case JOr(parts) => |parts| >= 2 && AllRenderable(parts)
    case JNot(inner) => Renderable(inner)
  }

  predicate AllRenderable(parts: seq<Jql>)
    decreases parts, 0
  {
    |parts| == 0 || (Renderable(parts[0]) && AllRenderable(parts[1..]))
  }

  /** A backslash before each backslash and each quote of the kind the text is put in. */
  function EscapeText(s: string, quote: char): string {
    if |s| == 0 then ""
    else (if s[0] == '\\' || s[0] == quote then ['\\', s[0]] else [s[0]]) + EscapeText(s[1..], quote)
  }

  /** Digits and points after a digit or a minus sign with a digit. */
  predicate IsNumber(s: string) {
    var i := if |s| > 0 && s[0] == '-' then 1 else 0;
    i < |s| && IsDigit(s[i]) && forall k :: i < k < |s| ==> IsDigit(s[k]) || s[k] == '.'
  }

  /** Single quotes around a text that holds a double quote and no single one; double quotes otherwise. */
  function QuoteFor(s: string): char { if '"' in s && '\'' !in s then '\'' else '"' }

  function Quoted(s: string): string { [QuoteFor(s)] + (EscapeText(s, QuoteFor(s)) + [QuoteFor(s)]) }

  function RenderValue(v: JqlValue): string {
    match v
    case JText(s) => if IsNumber(s) then s else Quoted(s)
    case JFlag(b) => if b then "true" else "false"
  }

  function OpText(op: JqlOp): string {
    match op
    case JEq => " = "
    case JNe => " != "
    case JGt => " > "
    case JGte => " >= "
    case JLt => " < "
    case JLte => " <= "
    case JContains => " ~ "
    case JNotContains => " !~ "
  }

  /** `, v` for each further value of a list. */
  function RenderMoreValues(values: seq<JqlValue>): string {
    if |values| == 0 then "" else ", " + (RenderValue(values[0]) + RenderMoreValues(values[1..]))
  }

  function RenderValues(values: seq<JqlValue>): string
    requires |values| > 0
  {
    RenderValue(values[0]) + RenderMoreValues(values[1..])
  }

  function Render(e: Jql): string
    decreases e, 1
  {
    match e
    case JCompare(f, op, v) => f + (OpText(op) + RenderValue(v))
    case JIn(f, negate, values) =>
      f + ((if negate then " NOT IN (" else " IN (") + ((if |values| == 0 then "" else RenderValues(values)) + ")"))
    case JIsEmpty(f, negate) => f + (if negate then " IS NOT EMPTY" else " IS EMPTY")
    case JAnd(parts) => "(" + (RenderParts(parts, " AND ") + ")")
    case JOr(parts) => "(" + (RenderParts(parts, " OR ") + ")")
    case JNot(inner) => "NOT " + Render(inner)
  }

  function RenderParts(parts: seq<Jql>, sep: string): string
    decreases parts, 1
  {
    if |parts| == 0 then "" else Render(parts[0]) + RenderMoreParts(parts[1..], sep)
  }

  function RenderMoreParts(parts: seq<Jql>, sep: string): string
    decreases parts, 0
  {
    if |parts| == 0 then "" else sep + (Render(parts[0]) + RenderMoreParts(parts[1..], sep))
  }

  // ---------------------------------------------------------------- the tokens of a rendering

  function ValueToken(v: JqlValue): Token {
    match v
    case JText(s) => if IsNumber(s) then TNumber(s) else TStr(s)
    case JFlag(b) => if b then KwTrue else KwFalse
  }

  function OpToken(op: JqlOp): Token {
    match op
    case JEq => TEq
    case JNe => TNe
    case JGt => TGt
    case JGte => TGte
    case JLt => TLt
    case JLte => TLte
    case JContains => TTilde
    case JNotContains => TNotTilde
  }

  function MoreValueTokens(values: seq<JqlValue>): seq<Token> {
    if |values| == 0 then [] else [TComma] + ([ValueToken(values[0])] + MoreValueTokens(values[1..]))
  }

  function ValueTokens(values: seq<JqlValue>): seq<Token>
    requires |values| > 0
  {
    [ValueToken(values[0])] + MoreValueTokens(values[1..])
  }

  function Tokens(e: Jql): seq<Token>
    decreases e, 1
  {
    match e
    case JCompare(f, op, v) => [TIdent(f)] + ([OpToken(op)] + [ValueToken(v)])
    case JIn(f, negate, values) =>
      [TIdent(f)] + ((if negate then [KwNot, KwIn, TLParen] else [KwIn, TLParen])
        + ((if |values| == 0 then [] else ValueTokens(values)) + [TRParen]))
    case JIsEmpty(f, negate) => [TIdent(f)] + (if negate then [KwIs, KwNot, KwEmpty] else [KwIs, KwEmpty])
    case JAnd(parts) => [TLParen] + (PartTokens(parts, KwAnd) + [TRParen])
    case JOr(parts) => [TLParen] + (PartTokens(parts, KwOr) + [TRParen])
    case JNot(inner) => [KwNot] + Tokens(inner)
  }

  function PartTokens(parts: seq<Jql>, sep: Token): seq<Token>
    decreases parts, 1
  {
    if |parts| == 0 then [] else Tokens(parts[0]) + MorePartTokens(parts[1..], sep)
  }

  function MorePartTokens(parts: seq<Jql>, sep: Token): seq<Token>
    decreases parts, 0
  {
    if |parts| == 0 then [] else [sep] + (Tokens(parts[0]) + MorePartTokens(parts[1..], sep))
  }

  // ---------------------------------------------------------------- tokenizing a rendering

  /** A character that continues a word or a number. */
  predicate Joins(c: char) { IsWordChar(c) || c == '.' }

  /** A word or a number cannot continue at position `j`. */
  predicate WordEnds(s: string, j: nat) { j < |s| ==> !Joins(s[j]) }

  ghost predicate LexesAs(p: string, ts: seq<Token>) {
    forall s: string, i: nat :: At(s, i, p) && WordEnds(s, i + |p|)
      ==> LexFrom(s, i) == Prepend(ts, LexFrom(s, i + |p|))
  }

  lemma LexAppend(p: string, ts: seq<Token>, q: string, us: seq<Token>)
    requires LexesAs(p, ts) && LexesAs(q, us)
    requires |q| > 0 ==> !Joins(q[0])
    ensures LexesAs(p + q, ts + us)
  {
    forall s: string, i: nat | At(s, i, p + q) && WordEnds(s, i + |p + q|)
      ensures LexFrom(s, i) == Prepend(ts + us, LexFrom(s, i + |p + q|))
    {
      AtSplit(s, i, p, q);
      if |q| > 0 { assert s[i + |p|] == s[i + |p|..i + |p| + |q|][0]; }
      assert LexFrom(s, i + |p|) == Prepend(us, LexFrom(s, i + |p| + |q|));
      PrependTwice(ts, us, LexFrom(s, i + |p| + |q|));
    }
  }

  /** Text that already ends in a blank or bracket may be followed by anything. */
  ghost predicate LexesAnywhere(p: string, ts: seq<Token>) {
    forall s: string, i: nat :: At(s, i, p) ==> LexFrom(s, i) == Prepend(ts, LexFrom(s, i + |p|))
  }

  lemma LexPrefix(p: string, ts: seq<Token>, q: string, us: seq<Token>)
    requires LexesAnywhere(p, ts) && LexesAs(q, us)
    ensures LexesAs(p + q, ts + us)
  {
    forall s: string, i: nat | At(s, i, p + q) && WordEnds(s, i + |p + q|)
      ensures LexFrom(s, i) == Prepend(ts + us, LexFrom(s, i + |p + q|))
    {
      AtSplit(s, i, p, q);
      assert LexFrom(s, i + |p|) == Prepend(us, LexFrom(s, i + |p| + |q|));
      PrependTwice(ts, us, LexFrom(s, i + |p| + |q|));
    }
  }

  predicate IsSymbol(c: char) { c == '(' || c == ')' || c == ',' || c == '=' || c == '~' }

  function SymbolToken(c: char): Token
    requires IsSymbol(c)
  {
    if c == '(' then TLParen else if c == ')' then TRParen else if c == ',' then TComma else if c == '=' then TEq
      else TTilde
  }

  lemma LexSpace()
    ensures LexesAnywhere(" ", [])
  {
    forall s: string, i: nat | At(s, i, " ")
      ensures LexFrom(s, i) == Prepend([], LexFrom(s, i + |" "|))
    {
      AtCons(s, i, ' ', "");
      PrependNone(LexFrom(s, i + 1));
    }
  }

  /** Any of the four blanks may stand where one does. */
  lemma LexBlank(c: char)
    requires c == ' ' || c == '\t' || c == '\n' || c == '\r'
    ensures LexesAnywhere([c], [])
  {
    forall s: string, i: nat | At(s, i, [c])
      ensures LexFrom(s, i) == Prepend([], LexFrom(s, i + |[c]|))
    {
      AtCons(s, i, c, "");
      PrependNone(LexFrom(s, i + 1));
    }
  }

  predicate SameWord(v: string, w: string) {
    |v| == |w| && forall k :: 0 <= k < |v| ==>
      v[k] == w[k] || ('a' <= v[k] <= 'z' && v[k] as int == w[k] as int + 32)
                   || ('a' <= w[k] <= 'z' && w[k] as int == v[k] as int + 32)
  }

  /** Keywords are read in upper, lower and mixed case alike. */
  lemma {:induction false} UpperOfSame(v: string, w: string)
    requires SameWord(v, w)
    ensures Upper(v) == Upper(w) && Keyword(v) == Keyword(w)
    decreases |v|
  {
    if |v| > 0 { UpperOfSame(v[1..], w[1..]); }
  }

  lemma LexSymbol(c: char)
    requires IsSymbol(c)
    ensures LexesAnywhere([c], [SymbolToken(c)])
  {
    forall s: string, i: nat | At(s, i, [c])
      ensures LexFrom(s, i) == Prepend([SymbolToken(c)], LexFrom(s, i + |[c]|))
    {
      AtCons(s, i, c, "");
    }
  }

  /** A comparison symbol between blanks. */
  lemma LexOperator(op: JqlOp)
    ensures LexesAnywhere(OpText(op), [OpToken(op)])
  {
    hide LexFrom, OpText, OpToken;
    forall s: string, i: nat | At(s, i, OpText(op))
      ensures LexFrom(s, i) == Prepend([OpToken(op)], LexFrom(s, i + |OpText(op)|))
    {
      OperatorStep(s, i, op);
    }
  }

  lemma OperatorStep(s: string, i: nat, op: JqlOp)
    requires At(s, i, OpText(op))
    ensures LexFrom(s, i) == Prepend([OpToken(op)], LexFrom(s, i + |OpText(op)|))
  {
    var text := OpText(op);
    var n := |text| - 2;
    assert forall k {:trigger text[k]} :: 0 <= k < |text| ==> s[i + k] == s[i..i + |text|][k] == text[k];
    assert text[0] == ' ' && text[1] != ' ' && text[|text| - 1] == ' ';
    assert s[i] == ' ' && s[i + 1] == text[1] && s[i + 2] == text[2] && s[i + 1 + n] == ' ';
    assert TokenAt(s, i + 1) == Ok((OpToken(op), i + 1 + n));
    assert LexFrom(s, i) == LexFrom(s, i + 1);
    assert LexFrom(s, i + 1 + n) == LexFrom(s, i + 2 + n);
  }

  predicate IsWord(w: string) {
    |w| > 0 && (IsAlpha(w[0]) || w[0] == '_') && forall k :: 0 <= k < |w| ==> IsWordChar(w[k])
  }

  lemma {:induction false} WordRuns(s: string, i: nat, j: nat)
    requires i <= j <= |s| && WordEnds(s, j)
    requires forall k :: i <= k < j ==> IsWordChar(s[k])
    ensures WordEnd(s, i) == j
    decreases j - i
  {
    if i < j { WordRuns(s, i + 1, j); }
  }

  lemma LexWord(w: string)
    requires IsWord(w)
    ensures LexesAs(w, [WordToken(w)])
  {
    forall s: string, i: nat | At(s, i, w) && WordEnds(s, i + |w|)
      ensures LexFrom(s, i) == Prepend([WordToken(w)], LexFrom(s, i + |w|))
    {
      forall k | i <= k < i + |w| ensures s[k] == w[k - i] { assert s[k] == s[i..i + |w|][k - i]; }
      WordRuns(s, i + 1, i + |w|);
      assert TokenAt(s, i) == Ok((WordToken(w), i + |w|));
    }
  }

  lemma {:induction false} LexEscaped(s: string, i: nat, text: string, quote: char)
    requires At(s, i, EscapeText(text, quote) + [quote]) && quote != '\\'
    ensures StringFrom(s, i, quote) == Some((text, i + |EscapeText(text, quote)| + 1))
    decreases |text|
  {
    if |text| == 0 {
      assert EscapeText(text, quote) + [quote] == [quote] + "";
      AtCons(s, i, quote, "");
    } else {
      var rest := EscapeText(text[1..], quote) + [quote];
      if text[0] == '\\' || text[0] == quote {
        assert EscapeText(text, quote) + [quote] == ['\\'] + ([text[0]] + rest);
        AtCons(s, i, '\\', [text[0]] + rest);
        AtCons(s, i + 1, text[0], rest);
        LexEscaped(s, i + 2, text[1..], quote);
      } else {
        assert EscapeText(text, quote) + [quote] == [text[0]] + rest;
        AtCons(s, i, text[0], rest);
        LexEscaped(s, i + 1, text[1..], quote);
      }
      assert text == [text[0]] + text[1..];
    }
  }

  lemma TokenOfQuoted(s: string, i: nat, text: string)
    requires At(s, i, Quoted(text))
    ensures i < |s| && (s[i] == '"' || s[i] == '\'') && TokenAt(s, i) == Ok((TStr(text), i + |Quoted(text)|))
  {
    hide EscapeText, StringFrom, NumberEnd, WordEnd, WordToken;
    var quote := QuoteFor(text);
    AtCons(s, i, quote, EscapeText(text, quote) + [quote]);
    LexEscaped(s, i + 1, text, quote);
  }

  lemma LexText(text: string)
    ensures LexesAnywhere(Quoted(text), [TStr(text)])
  {
    hide Quoted, TokenAt;
    forall s: string, i: nat | At(s, i, Quoted(text))
      ensures LexFrom(s, i) == Prepend([TStr(text)], LexFrom(s, i + |Quoted(text)|))
    {
      TokenOfQuoted(s, i, text);
    }
  }

  lemma {:induction false} NumberRuns(s: string, i: nat, j: nat)
    requires i <= j <= |s| && WordEnds(s, j)
    requires forall k :: i <= k < j ==> IsDigit(s[k]) || s[k] == '.'
    ensures NumberEnd(s, i) == j
    decreases j - i
  {
    if i < j { NumberRuns(s, i + 1, j); }
  }

  lemma LexNumber(text: string)
    requires IsNumber(text)
    ensures LexesAs(text, [TNumber(text)])
  {
    forall s: string, i: nat | At(s, i, text) && WordEnds(s, i + |text|)
      ensures LexFrom(s, i) == Prepend([TNumber(text)], LexFrom(s, i + |text|))
    {
      forall k | i <= k < i + |text| ensures s[k] == text[k - i] { assert s[k] == s[i..i + |text|][k - i]; }
      NumberRuns(s, i + 1, i + |text|);
      assert TokenAt(s, i) == Ok((TNumber(text), i + |text|));
    }
  }

  lemma AnywhereIsAs(p: string, ts: seq<Token>)
    requires LexesAnywhere(p, ts)
    ensures LexesAs(p, ts)
  {
  }

  lemma AnywhereAppend(p: string, ts: seq<Token>, q: string, us: seq<Token>)
    requires LexesAnywhere(p, ts) && LexesAnywhere(q, us)
    ensures LexesAnywhere(p + q, ts + us)
  {
    forall s: string, i: nat | At(s, i, p + q)
      ensures LexFrom(s, i) == Prepend(ts + us, LexFrom(s, i + |p + q|))
    {
      AtSplit(s, i, p, q);
      assert LexFrom(s, i + |p|) == Prepend(us, LexFrom(s, i + |p| + |q|));
      PrependTwice(ts, us, LexFrom(s, i + |p| + |q|));
    }
  }

  /** A word followed by a character that cannot continue it. */
  lemma WordThen(w: string, q: string, us: seq<Token>)
    requires IsWord(w) && LexesAnywhere(q, us) && |q| > 0 && !Joins(q[0])
    ensures LexesAnywhere(w + q, [WordToken(w)] + us)
  {
    LexWord(w);
    forall s: string, i: nat | At(s, i, w + q)
      ensures LexFrom(s, i) == Prepend([WordToken(w)] + us, LexFrom(s, i + |w + q|))
    {
      AtSplit(s, i, w, q);
      assert s[i + |w|] == s[i + |w|..i + |w| + |q|][0];
      assert LexFrom(s, i + |w|) == Prepend(us, LexFrom(s, i + |w| + |q|));
      PrependTwice([WordToken(w)], us, LexFrom(s, i + |w| + |q|));
    }
  }

  /** ` KEYWORD ` between blanks. */
  lemma LexSpaced(w: string, kw: Token)
    requires IsWord(w) && WordToken(w) == kw
    ensures LexesAnywhere(" " + (w + " "), [kw])
    ensures LexesAnywhere(w + " ", [kw])
    ensures LexesAs(" " + w, [kw])
  {
    LexSpace();
    WordThen(w, " ", []);
    assert [kw] + [] == [kw] && [] + [kw] == [kw];
    AnywhereAppend(" ", [], w + " ", [kw]);
    LexWord(w);
    LexPrefix(" ", [], w, [kw]);
  }

  lemma UpperWord(w: string)
    requires forall k :: 0 <= k < |w| ==> !('a' <= w[k] <= 'z')
    ensures Upper(w) == w
  {
    if |w| > 0 { UpperWord(w[1..]); }
  }

  lemma AndLexes()
    ensures LexesAnywhere(" AND ", [KwAnd])
  {
    UpperWord("AND");
    LexSpaced("AND", KwAnd);
    assert " " + ("AND" + " ") == " AND ";
  }

  lemma OrLexes()
    ensures LexesAnywhere(" OR ", [KwOr])
  {
    UpperWord("OR");
    LexSpaced("OR", KwOr);
    assert " " + ("OR" + " ") == " OR ";
  }

  lemma NotLexes()
    ensures LexesAnywhere("NOT ", [KwNot]) && LexesAnywhere(" NOT ", [KwNot]) && LexesAs(" NOT", [KwNot])
  {
    UpperWord("NOT");
    LexSpaced("NOT", KwNot);
    assert "NOT" + " " == "NOT " && " " + ("NOT" + " ") == " NOT " && " " + "NOT" == " NOT";
  }

  lemma InLexes()
    ensures LexesAnywhere(" IN ", [KwIn]) && LexesAnywhere("IN ", [KwIn])
  {
    UpperWord("IN");
    LexSpaced("IN", KwIn);
    assert " " + ("IN" + " ") == " IN " && "IN" + " " == "IN ";
  }

  lemma IsLexes()
    ensures LexesAs(" IS", [KwIs])
  {
    UpperWord("IS");
    LexSpaced("IS", KwIs);
    assert " " + "IS" == " IS";
  }

  lemma EmptyWord()
    ensures IsWord("EMPTY") && WordToken("EMPTY") == KwEmpty
  {
    UpperWord("EMPTY");
  }

  lemma EmptyLexes()
    ensures LexesAs(" EMPTY", [KwEmpty])
  {
    hide WordToken, IsWord;
    EmptyWord();
    LexSpaced("EMPTY", KwEmpty);
    assert " " + "EMPTY" == " EMPTY";
  }

  lemma OrderWord()
    ensures IsWord("ORDER") && WordToken("ORDER") == KwOrder
  {
    UpperWord("ORDER");
  }

  lemma OrderLexes()
    ensures LexesAnywhere("ORDER ", [KwOrder]) && LexesAnywhere(" ORDER ", [KwOrder])
  {
    hide WordToken, IsWord;
    OrderWord();
    LexSpaced("ORDER", KwOrder);
    assert "ORDER" + " " == "ORDER " && " " + ("ORDER" + " ") == " ORDER ";
  }

  lemma ByLexes()
    ensures LexesAnywhere("BY ", [KwBy])
  {
    UpperWord("BY");
    LexSpaced("BY", KwBy);
    assert "BY" + " " == "BY ";
  }

  lemma AscLexes()
    ensures LexesAs(" ASC", [KwAsc])
  {
    UpperWord("ASC");
    LexSpaced("ASC", KwAsc);
    assert " " + "ASC" == " ASC";
  }

  lemma DescWord()
    ensures IsWord("DESC") && WordToken("DESC") == KwDesc
  {
    UpperWord("DESC");
  }

  lemma DescLexes()
    ensures LexesAs(" DESC", [KwDesc])
  {
    hide WordToken, IsWord;
    DescWord();
    LexSpaced("DESC", KwDesc);
    assert " " + "DESC" == " DESC";
  }

  lemma TrueIsKeyword()
    ensures WordToken("true") == KwTrue
  {
    assert Upper("e") == "E";
    assert Upper("ue") == "UE" by { assert "ue"[1..] == "e"; }
    assert Upper("rue") == "RUE" by { assert "rue"[1..] == "ue"; }
    assert Upper("true") == "TRUE" by { assert "true"[1..] == "rue"; }
  }

  lemma FalseIsKeyword()
    ensures WordToken("false") == KwFalse
  {
    assert Upper("e") == "E";
    assert Upper("se") == "SE" by { assert "se"[1..] == "e"; }
    assert Upper("lse") == "LSE" by { assert "lse"[1..] == "se"; }
    assert Upper("alse") == "ALSE" by { assert "alse"[1..] == "lse"; }
    assert Upper("false") == "FALSE" by { assert "false"[1..] == "alse"; }
  }

  // ---------------------------------------------------------------- from parts to whole renderings

  lemma LexValue(v: JqlValue)
    ensures LexesAs(RenderValue(v), [ValueToken(v)])
  {
    match v
    case JText(s) => if IsNumber(s) { LexNumber(s); } else { LexText(s); }
    case JFlag(b) =>
      TrueIsKeyword();
      FalseIsKeyword();
      LexWord(if b then "true" else "false");
  }

  lemma LexComma()
    ensures LexesAnywhere(", ", [TComma])
  {
    LexSymbol(',');
    LexSpace();
    AnywhereAppend([','], [TComma], " ", []);
    assert [','] + " " == ", " && [TComma] + [] == [TComma];
  }

  lemma LexNothing()
    ensures LexesAs("", [])
  {
    forall s: string, i: nat | At(s, i, "") && WordEnds(s, i + |""|)
      ensures LexFrom(s, i) == Prepend([], LexFrom(s, i + |""|))
    {
      PrependNone(LexFrom(s, i));
    }
  }

  lemma {:induction false} LexMoreValues(values: seq<JqlValue>)
    ensures LexesAs(RenderMoreValues(values), MoreValueTokens(values))
    decreases |values|
  {
    if |values| == 0 {
      LexNothing();
    } else {
      LexValue(values[0]);
      LexMoreValues(values[1..]);
      LexAppend(RenderValue(values[0]), [ValueToken(values[0])],
                RenderMoreValues(values[1..]), MoreValueTokens(values[1..]));
      LexComma();
      LexPrefix(", ", [TComma], RenderValue(values[0]) + RenderMoreValues(values[1..]),
                [ValueToken(values[0])] + MoreValueTokens(values[1..]));
    }
  }

  lemma LexValues(values: seq<JqlValue>)
    requires |values| > 0
    ensures LexesAs(RenderValues(values), ValueTokens(values))
  {
    LexValue(values[0]);
    LexMoreValues(values[1..]);
    LexAppend(RenderValue(values[0]), [ValueToken(values[0])],
              RenderMoreValues(values[1..]), MoreValueTokens(values[1..]));
  }

  lemma FieldIsWord(f: string)
    requires FieldName(f)
    ensures IsWord(f) && WordToken(f) == TIdent(f)
  {
  }

  lemma CloseParen(p: string, ts: seq<Token>)
    requires LexesAs(p, ts)
    ensures LexesAs(p + ")", ts + [TRParen])
  {
    LexSymbol(')');
    AnywhereIsAs([')'], [TRParen]);
    LexAppend(p, ts, ")", [TRParen]);
  }

  lemma LexIn(f: string, negate: bool, values: seq<JqlValue>)
    requires FieldName(f) && |values| > 0
    ensures LexesAs(Render(JIn(f, negate, values)), Tokens(JIn(f, negate, values)))
  {
    LexValues(values);
    CloseParen(RenderValues(values), ValueTokens(values));
    var tail, toks := RenderValues(values) + ")", ValueTokens(values) + [TRParen];
    InOpens(negate);
    var opener := if negate then " NOT IN (" else " IN (";
    var openTokens := if negate then [KwNot, KwIn, TLParen] else [KwIn, TLParen];
    LexPrefix(opener, openTokens, tail, toks);
    FieldIsWord(f);
    LexWord(f);
    LexAppend(f, [TIdent(f)], opener + tail, openTokens + toks);
  }

  lemma InOpens(negate: bool)
    ensures LexesAnywhere(if negate then " NOT IN (" else " IN (", if negate then [KwNot, KwIn, TLParen]
            else [KwIn, TLParen])
  {
    InLexes();
    LexSymbol('(');
    if negate {
      NotLexes();
      AnywhereAppend(" NOT ", [KwNot], "IN ", [KwIn]);
      AnywhereAppend(" NOT " + "IN ", [KwNot] + [KwIn], ['('], [TLParen]);
      assert " NOT " + "IN " + ['('] == " NOT IN (" && [KwNot] + [KwIn] + [TLParen] == [KwNot, KwIn, TLParen];
    } else {
      AnywhereAppend(" IN ", [KwIn], ['('], [TLParen]);
      assert " IN " + ['('] == " IN (" && [KwIn] + [TLParen] == [KwIn, TLParen];
    }
  }

  lemma LexIsEmpty(f: string, negate: bool)
    requires FieldName(f)
    ensures LexesAs(Render(JIsEmpty(f, negate)), Tokens(JIsEmpty(f, negate)))
  {
    EmptyTest(negate);
    FieldIsWord(f);
    LexWord(f);
    var test := if negate then " IS NOT EMPTY" else " IS EMPTY";
    var toks := if negate then [KwIs, KwNot, KwEmpty] else [KwIs, KwEmpty];
    LexAppend(f, [TIdent(f)], test, toks);
  }

  lemma EmptyTest(negate: bool)
    ensures LexesAs(if negate then " IS NOT EMPTY" else " IS EMPTY", if negate then [KwIs, KwNot, KwEmpty]
            else [KwIs, KwEmpty])
  {
    IsLexes();
    EmptyLexes();
    if negate {
      NotLexes();
      LexAppend(" NOT", [KwNot], " EMPTY", [KwEmpty]);
      LexAppend(" IS", [KwIs], " NOT" + " EMPTY", [KwNot] + [KwEmpty]);
      assert " IS" + (" NOT" + " EMPTY") == " IS NOT EMPTY" && [KwIs] + ([KwNot] + [KwEmpty]) == [KwIs, KwNot, KwEmpty];
    } else {
      LexAppend(" IS", [KwIs], " EMPTY", [KwEmpty]);
      assert " IS" + " EMPTY" == " IS EMPTY" && [KwIs] + [KwEmpty] == [KwIs, KwEmpty];
    }
  }

  lemma LexCompare(f: string, op: JqlOp, v: JqlValue)
    requires FieldName(f)
    ensures LexesAs(Render(JCompare(f, op, v)), Tokens(JCompare(f, op, v)))
  {
    LexValue(v);
    LexOperator(op);
    LexPrefix(OpText(op), [OpToken(op)], RenderValue(v), [ValueToken(v)]);
    FieldIsWord(f);
    LexWord(f);
    LexAppend(f, [TIdent(f)], OpText(op) + RenderValue(v), [OpToken(op)] + [ValueToken(v)]);
  }

  lemma LexParens(p: string, ts: seq<Token>)
    requires LexesAs(p, ts)
    ensures LexesAs("(" + (p + ")"), [TLParen] + (ts + [TRParen]))
  {
    CloseParen(p, ts);
    LexSymbol('(');
    LexPrefix(['('], [TLParen], p + ")", ts + [TRParen]);
  }

  /** The rendering of a query, wherever it stands, is tokenized to the query's own tokens. */
  lemma {:induction false} LexRendering(e: Jql)
    requires Renderable(e)
    ensures LexesAs(Render(e), Tokens(e))
    decreases e, 1
  {
    match e
    case JCompare(f, op, v) => LexCompare(f, op, v);
    case JIn(f, negate, values) => LexIn(f, negate, values);
    case JIsEmpty(f, negate) => LexIsEmpty(f, negate);
    case JAnd(parts) =>
      AndLexes();
      LexParts(parts, " AND ", KwAnd);
      LexParens(RenderParts(parts, " AND "), PartTokens(parts, KwAnd));
    case JOr(parts) =>
      OrLexes();
      LexParts(parts, " OR ", KwOr);
      LexParens(RenderParts(parts, " OR "), PartTokens(parts, KwOr));
    case JNot(inner) =>
      NotLexes();
      LexRendering(inner);
      LexPrefix("NOT ", [KwNot], Render(inner), Tokens(inner));
  }

  lemma {:induction false} LexParts(parts: seq<Jql>, sep: string, kw: Token)
    requires |parts| > 0 && AllRenderable(parts)
    requires LexesAnywhere(sep, [kw]) && |sep| > 0 && !Joins(sep[0])
    ensures LexesAs(RenderParts(parts, sep), PartTokens(parts, kw))
    decreases parts, 1
  {
    LexRendering(parts[0]);
    LexMoreParts(parts[1..], sep, kw);
    LexAppend(Render(parts[0]), Tokens(parts[0]), RenderMoreParts(parts[1..], sep), MorePartTokens(parts[1..], kw));
  }

  lemma {:induction false} LexMoreParts(parts: seq<Jql>, sep: string, kw: Token)
    requires AllRenderable(parts)
    requires LexesAnywhere(sep, [kw]) && |sep| > 0 && !Joins(sep[0])
    ensures LexesAs(RenderMoreParts(parts, sep), MorePartTokens(parts, kw))
    decreases parts, 0
  {
    if |parts| == 0 {
      LexNothing();
    } else {
      LexRendering(parts[0]);
      LexMoreParts(parts[1..], sep, kw);
      LexAppend(Render(parts[0]), Tokens(parts[0]), RenderMoreParts(parts[1..], sep), MorePartTokens(parts[1..], kw));
      LexPrefix(sep, [kw], Render(parts[0]) + RenderMoreParts(parts[1..], sep),
                Tokens(parts[0]) + MorePartTokens(parts[1..], kw));
    }
  }

  // ---------------------------------------------------------------- parsing a rendering's tokens

  lemma ValueStep(ts: seq<Token>, i: nat, v: JqlValue)
    requires Closed(ts) && i < |ts| && ts[i] == ValueToken(v)
    ensures i + 1 < |ts| && ParseValue(ts, i) == Ok((v, i + 1))
  {
  }

  lemma ValuesStep(ts: seq<Token>, i: nat, v: JqlValue, acc: seq<JqlValue>)
    requires Closed(ts) && i + 1 < |ts| && ts[i] == TComma && ts[i + 1] == ValueToken(v)
    ensures i + 2 < |ts| && ParseValues(ts, i, acc) == ParseValues(ts, i + 2, acc + [v])
  {
    ValueStep(ts, i + 1, v);
  }

  lemma ValuesEnd(ts: seq<Token>, i: nat, acc: seq<JqlValue>)
    requires Closed(ts) && i < |ts| && ts[i] == TRParen
    ensures ParseValues(ts, i, acc) == Ok((acc, i + 1))
  {
  }

  lemma {:induction false} ParseMoreValues(ts: seq<Token>, i: nat, values: seq<JqlValue>, acc: seq<JqlValue>)
    requires Closed(ts) && At(ts, i, MoreValueTokens(values) + [TRParen])
    ensures i < |ts| && ParseValues(ts, i, acc) == Ok((acc + values, i + |MoreValueTokens(values)| + 1))
    decreases |values|
  {
    hide ParseValues, ParseValue;
    if |values| == 0 {
      AtCons(ts, i, TRParen, []);
      ValuesEnd(ts, i, acc);
      assert acc + values == acc;
    } else {
      var tail := MoreValueTokens(values[1..]) + [TRParen];
      assert MoreValueTokens(values) + [TRParen] == [TComma] + ([ValueToken(values[0])] + tail);
      AtCons(ts, i, TComma, [ValueToken(values[0])] + tail);
      AtCons(ts, i + 1, ValueToken(values[0]), tail);
      ValuesStep(ts, i, values[0], acc);
      ParseMoreValues(ts, i + 2, values[1..], acc + [values[0]]);
      assert acc + [values[0]] + values[1..] == acc + values;
    }
  }

  lemma ValueListStep(ts: seq<Token>, i: nat, v: JqlValue, vs: seq<JqlValue>, k: nat)
    requires Closed(ts) && i + 2 < |ts| && ts[i] == TLParen && ts[i + 1] == ValueToken(v)
    requires ParseValues(ts, i + 2, [v]) == Ok((vs, k))
    ensures ParseValueList(ts, i) == Ok((vs, k))
  {
    ValueStep(ts, i + 1, v);
  }

  lemma InStep(ts: seq<Token>, i: nat, f: string, negate: bool, vs: seq<JqlValue>, k: nat)
    requires Closed(ts) && i < |ts| && ts[i] == TIdent(f)
    requires i + 3 < |ts| && (if negate then ts[i + 1] == KwNot && ts[i + 2] == KwIn else ts[i + 1] == KwIn)
    requires ParseValueList(ts, i + (if negate then 3 else 2)) == Ok((vs, k))
    ensures ParseComparison(ts, i) == Ok((JIn(f, negate, vs), k))
  {
    assert ParseIn(ts, i + (if negate then 3 else 2), f, negate) == Ok((JIn(f, negate, vs), k));
  }

  lemma ParseRenderedList(ts: seq<Token>, i: nat, values: seq<JqlValue>)
    requires Closed(ts) && |values| > 0 && At(ts, i, [TLParen] + (ValueTokens(values) + [TRParen]))
    ensures i < |ts| && ParseValueList(ts, i) == Ok((values, i + 1 + |ValueTokens(values)| + 1))
  {
    hide ParseValues, ParseValue, ParseValueList;
    var more := MoreValueTokens(values[1..]) + [TRParen];
    assert ValueTokens(values) + [TRParen] == [ValueToken(values[0])] + more;
    AtCons(ts, i, TLParen, [ValueToken(values[0])] + more);
    AtCons(ts, i + 1, ValueToken(values[0]), more);
    ParseMoreValues(ts, i + 2, values[1..], [values[0]]);
    assert [values[0]] + values[1..] == values;
    ValueListStep(ts, i, values[0], values, i + 1 + |ValueTokens(values)| + 1);
  }

  lemma ComparisonIsNot(ts: seq<Token>, i: nat)
    requires Closed(ts) && i < |ts| && ts[i].TIdent?
    ensures ParseNot(ts, i) == ParseComparison(ts, i)
  {
  }

  lemma ParseRenderedPlainIn(ts: seq<Token>, i: nat, f: string, values: seq<JqlValue>)
    requires Closed(ts) && |values| > 0
             && At(ts, i, [TIdent(f)] + ([KwIn] + ([TLParen] + (ValueTokens(values) + [TRParen]))))
    ensures i < |ts| && ParseNot(ts, i) == Ok((JIn(f, false, values), i + |ValueTokens(values)| + 4))
  {
    hide ParseOr, ParseAnd, ParseNot, OrRest, AndRest, ParsePrimary, ParseComparison, ParseValueList;
    var items := [TLParen] + (ValueTokens(values) + [TRParen]);
    AtCons(ts, i, TIdent(f), [KwIn] + items);
    AtCons(ts, i + 1, KwIn, items);
    ParseRenderedList(ts, i + 2, values);
    InStep(ts, i, f, false, values, i + 2 + |items|);
    ComparisonIsNot(ts, i);
  }

  lemma ParseRenderedNotIn(ts: seq<Token>, i: nat, f: string, values: seq<JqlValue>)
    requires Closed(ts) && |values| > 0
    requires At(ts, i, [TIdent(f)] + ([KwNot] + ([KwIn] + ([TLParen] + (ValueTokens(values) + [TRParen])))))
    ensures i < |ts| && ParseNot(ts, i) == Ok((JIn(f, true, values), i + |ValueTokens(values)| + 5))
  {
    hide ParseOr, ParseAnd, ParseNot, OrRest, AndRest, ParsePrimary, ParseComparison, ParseValueList;
    var items := [TLParen] + (ValueTokens(values) + [TRParen]);
    AtCons(ts, i, TIdent(f), [KwNot] + ([KwIn] + items));
    AtCons(ts, i + 1, KwNot, [KwIn] + items);
    AtCons(ts, i + 2, KwIn, items);
    ParseRenderedList(ts, i + 3, values);
    InStep(ts, i, f, true, values, i + 3 + |items|);
    ComparisonIsNot(ts, i);
  }

  lemma ParseRenderedIn(ts: seq<Token>, i: nat, f: string, negate: bool, values: seq<JqlValue>)
    requires Closed(ts) && |values| > 0 && At(ts, i, Tokens(JIn(f, negate, values)))
    ensures i < |ts| && ParseNot(ts, i) == Ok((JIn(f, negate, values), i + |Tokens(JIn(f, negate, values))|))
  {
    hide ParseOr, ParseAnd, ParseNot, OrRest, AndRest, ParsePrimary, ParseComparison;
    var items := [TLParen] + (ValueTokens(values) + [TRParen]);
    if negate {
      assert Tokens(JIn(f, true, values)) == [TIdent(f)] + ([KwNot] + ([KwIn] + items));
      ParseRenderedNotIn(ts, i, f, values);
    } else {
      assert Tokens(JIn(f, false, values)) == [TIdent(f)] + ([KwIn] + items);
      ParseRenderedPlainIn(ts, i, f, values);
    }
  }

  lemma ParseRenderedIsEmpty(ts: seq<Token>, i: nat, f: string, negate: bool)
    requires Closed(ts) && At(ts, i, Tokens(JIsEmpty(f, negate)))
    ensures i < |ts| && ParseNot(ts, i) == Ok((JIsEmpty(f, negate), i + |Tokens(JIsEmpty(f, negate))|))
  {
    var test := if negate then [KwIs, KwNot, KwEmpty] else [KwIs, KwEmpty];
    AtCons(ts, i, TIdent(f), test);
    AtCons(ts, i + 1, KwIs, test[1..]);
    AtCons(ts, i + 2, test[1], test[2..]);
    if negate { AtCons(ts, i + 3, KwEmpty, []); }
    ComparisonIsNot(ts, i);
  }

  lemma ParseRenderedCompare(ts: seq<Token>, i: nat, f: string, op: JqlOp, v: JqlValue)
    requires Closed(ts) && At(ts, i, Tokens(JCompare(f, op, v)))
    ensures i < |ts| && ParseNot(ts, i) == Ok((JCompare(f, op, v), i + |Tokens(JCompare(f, op, v))|))
  {
    AtCons(ts, i, TIdent(f), [OpToken(op)] + [ValueToken(v)]);
    AtCons(ts, i + 1, OpToken(op), [ValueToken(v)]);
    AtCons(ts, i + 2, ValueToken(v), []);
    assert CompareOp(OpToken(op)) == Some(op);
    ComparisonIsNot(ts, i);
  }

  lemma ParseRenderedLeaf(ts: seq<Token>, i: nat, e: Jql)
    requires Closed(ts) && Renderable(e) && At(ts, i, Tokens(e)) && (e.JCompare? || e.JIn? || e.JIsEmpty?)
    ensures i < |ts| && ParseNot(ts, i) == Ok((e, i + |Tokens(e)|))
  {
    hide ParseNot, At;
    match e
    case JCompare(f, op, v) => ParseRenderedCompare(ts, i, f, op, v);
    case JIn(f, negate, values) => ParseRenderedIn(ts, i, f, negate, values);
    case JIsEmpty(f, negate) => ParseRenderedIsEmpty(ts, i, f, negate);
  }

  /** The tokens of a query are parsed, at the level of a factor, as exactly that query. */
  lemma {:induction false} ParseRendered(ts: seq<Token>, i: nat, e: Jql)
    requires Closed(ts) && Renderable(e) && At(ts, i, Tokens(e))
    ensures i < |ts| && ParseNot(ts, i) == Ok((e, i + |Tokens(e)|))
    decreases e, 1
  {
    hide ParseOr, ParseAnd, ParseNot, OrRest, AndRest, ParsePrimary, ParseComparison, At, Tokens;
    match e
    case JCompare(_, _, _) => ParseRenderedLeaf(ts, i, e);
    case JIn(_, _, _) => ParseRenderedLeaf(ts, i, e);
    case JIsEmpty(_, _) => ParseRenderedLeaf(ts, i, e);
    case JNot(inner) =>
      NotTokens(inner);
      AtCons(ts, i, KwNot, Tokens(inner));
      ParseRendered(ts, i + 1, inner);
      NotStep(ts, i, inner, i + 1 + |Tokens(inner)|);
    case JAnd(parts) => ParseRenderedAnd(ts, i, parts);
    case JOr(parts) => ParseRenderedOr(ts, i, parts);
  }

  lemma NotTokens(inner: Jql)
    ensures Tokens(JNot(inner)) == [KwNot] + Tokens(inner)
  {
  }

  lemma ConjunctionTokens(parts: seq<Jql>)
    requires |parts| > 0
    ensures Tokens(JAnd(parts))
            == [TLParen] + (Tokens(parts[0]) + (MorePartTokens(parts[1..], KwAnd) + [TRParen]))
  {
  }

  lemma DisjunctionTokens(parts: seq<Jql>)
    requires |parts| > 0
    ensures Tokens(JOr(parts))
            == [TLParen] + (Tokens(parts[0]) + (MorePartTokens(parts[1..], KwOr) + [TRParen]))
  {
  }

  lemma NotStep(ts: seq<Token>, i: nat, e: Jql, p: nat)
    requires Closed(ts) && i + 1 < |ts| && ts[i] == KwNot && ParseNot(ts, i + 1) == Ok((e, p))
    ensures ParseNot(ts, i) == Ok((JNot(e), p))
  {
  }

  lemma AndStep(ts: seq<Token>, i: nat, first: Jql, p: nat, parts: seq<Jql>, k: nat)
    requires Closed(ts) && i < |ts| && ParseNot(ts, i) == Ok((first, p))
    requires AndRest(ts, p, [first]) == Ok((parts, k)) && |parts| > 1
    ensures ParseAnd(ts, i) == Ok((JAnd(parts), k))
  {
  }

  lemma OrStep(ts: seq<Token>, i: nat, first: Jql, p: nat, parts: seq<Jql>, k: nat)
    requires Closed(ts) && i < |ts| && ParseAnd(ts, i) == Ok((first, p))
    requires OrRest(ts, p, [first]) == Ok((parts, k)) && |parts| > 1
    ensures ParseOr(ts, i) == Ok((JOr(parts), k))
  {
  }

  lemma {:induction false} ParseRenderedAnd(ts: seq<Token>, i: nat, parts: seq<Jql>)
    requires Closed(ts) && |parts| >= 2 && AllRenderable(parts) && At(ts, i, Tokens(JAnd(parts)))
    ensures i < |ts| && ParseNot(ts, i) == Ok((JAnd(parts), i + |Tokens(JAnd(parts))|))
    decreases parts, 1
  {
    hide At, Tokens, MorePartTokens, ParseOr, ParseAnd, ParseNot, OrRest, AndRest, ParsePrimary, ParseComparison;
    var more := MorePartTokens(parts[1..], KwAnd);
    var p := i + 1 + |Tokens(parts[0])|;
    ConjunctionTokens(parts);
    AtCons(ts, i, TLParen, Tokens(parts[0]) + (more + [TRParen]));
    AtSplit(ts, i + 1, Tokens(parts[0]), more + [TRParen]);
    ParseRendered(ts, i + 1, parts[0]);
    AtSplit(ts, p, more, [TRParen]);
    AtCons(ts, p + |more|, TRParen, []);
    ParseMoreConjuncts(ts, p, parts[1..], [parts[0]]);
    assert [parts[0]] + parts[1..] == parts;
    AndStep(ts, i + 1, parts[0], p, parts, p + |more|);
    OneDisjunct(ts, i + 1, JAnd(parts), p + |more|);
    ParenthesisedNot(ts, i, JAnd(parts), p + |more|);
  }

  lemma {:induction false} ParseRenderedOr(ts: seq<Token>, i: nat, parts: seq<Jql>)
    requires Closed(ts) && |parts| >= 2 && AllRenderable(parts) && At(ts, i, Tokens(JOr(parts)))
    ensures i < |ts| && ParseNot(ts, i) == Ok((JOr(parts), i + |Tokens(JOr(parts))|))
    decreases parts, 1
  {
    hide At, Tokens, MorePartTokens, ParseOr, ParseAnd, ParseNot, OrRest, AndRest, ParsePrimary, ParseComparison;
    var more := MorePartTokens(parts[1..], KwOr);
    var p := i + 1 + |Tokens(parts[0])|;
    DisjunctionTokens(parts);
    AtCons(ts, i, TLParen, Tokens(parts[0]) + (more + [TRParen]));
    AtSplit(ts, i + 1, Tokens(parts[0]), more + [TRParen]);
    ParseRendered(ts, i + 1, parts[0]);
    NextSeparator(ts, p, parts[1..]);
    OneConjunct(ts, i + 1, parts[0], p);
    AtSplit(ts, p, more, [TRParen]);
    AtCons(ts, p + |more|, TRParen, []);
    ParseMoreDisjuncts(ts, p, parts[1..], [parts[0]]);
    assert [parts[0]] + parts[1..] == parts;
    OrStep(ts, i + 1, parts[0], p, parts, p + |more|);
    ParenthesisedNot(ts, i, JOr(parts), p + |more|);
  }

  /** After a disjunct comes OR or the closing parenthesis. */
  lemma NextSeparator(ts: seq<Token>, p: nat, parts: seq<Jql>)
    requires At(ts, p, MorePartTokens(parts, KwOr) + [TRParen])
    ensures p < |ts| && ts[p] != KwAnd
  {
    var first := if |parts| == 0 then TRParen else KwOr;
    AtCons(ts, p, first, (MorePartTokens(parts, KwOr) + [TRParen])[1..]);
  }

  lemma OneDisjunct(ts: seq<Token>, i: nat, e: Jql, j: nat)
    requires Closed(ts) && i < |ts| && ParseAnd(ts, i) == Ok((e, j)) && ts[j] != KwOr
    ensures ParseOr(ts, i) == Ok((e, j))
  {
    assert OrRest(ts, j, [e]) == Ok(([e], j));
  }

  lemma OneConjunct(ts: seq<Token>, i: nat, e: Jql, j: nat)
    requires Closed(ts) && i < |ts| && ParseNot(ts, i) == Ok((e, j)) && ts[j] != KwAnd
    ensures ParseAnd(ts, i) == Ok((e, j))
  {
    assert AndRest(ts, j, [e]) == Ok(([e], j));
  }

  lemma ParenthesisedNot(ts: seq<Token>, i: nat, e: Jql, j: nat)
    requires Closed(ts) && i + 1 < |ts| && ts[i] == TLParen && ParseOr(ts, i + 1) == Ok((e, j)) && ts[j] == TRParen
    ensures ParseNot(ts, i) == Ok((e, j + 1))
  {
    assert ParsePrimary(ts, i) == Ok((e, j + 1));
  }

  lemma ConjunctStep(ts: seq<Token>, i: nat, acc: seq<Jql>, e: Jql, p: nat)
    requires Closed(ts) && i + 1 < |ts| && ts[i] == KwAnd && ParseNot(ts, i + 1) == Ok((e, p))
    ensures AndRest(ts, i, acc) == AndRest(ts, p, acc + [e])
  {
  }

  lemma NoMoreConjuncts(ts: seq<Token>, i: nat, acc: seq<Jql>)
    requires Closed(ts) && i < |ts| && ts[i] == TRParen
    ensures AndRest(ts, i, acc) == Ok((acc, i))
  {
  }

  lemma NoMoreDisjuncts(ts: seq<Token>, i: nat, acc: seq<Jql>)
    requires Closed(ts) && i < |ts| && ts[i] == TRParen
    ensures OrRest(ts, i, acc) == Ok((acc, i))
  {
  }

  lemma DisjunctStep(ts: seq<Token>, i: nat, acc: seq<Jql>, e: Jql, p: nat)
    requires Closed(ts) && i + 1 < |ts| && ts[i] == KwOr && ParseAnd(ts, i + 1) == Ok((e, p))
    ensures OrRest(ts, i, acc) == OrRest(ts, p, acc + [e])
  {
  }

  lemma {:induction false} ParseMoreConjuncts(ts: seq<Token>, i: nat, parts: seq<Jql>, acc: seq<Jql>)
    requires Closed(ts) && AllRenderable(parts) && At(ts, i, MorePartTokens(parts, KwAnd) + [TRParen])
    ensures i < |ts| && AndRest(ts, i, acc) == Ok((acc + parts, i + |MorePartTokens(parts, KwAnd)|))
    decreases parts, 0
  {
    hide ParseOr, ParseAnd, ParseNot, OrRest, AndRest, ParsePrimary, ParseComparison;
    if |parts| == 0 {
      AtCons(ts, i, TRParen, []);
      NoMoreConjuncts(ts, i, acc);
      assert acc + parts == acc;
    } else {
      var p := NextConjunct(ts, i, parts, acc);
      ParseMoreConjuncts(ts, p, parts[1..], acc + [parts[0]]);
      assert acc + [parts[0]] + parts[1..] == acc + parts;
    }
  }

  /** One separator and the conjunct after it. */
  lemma {:induction false} NextConjunct(ts: seq<Token>, i: nat, parts: seq<Jql>, acc: seq<Jql>) returns (p: nat)
    requires Closed(ts) && |parts| > 0 && AllRenderable(parts) && At(ts, i, MorePartTokens(parts, KwAnd) + [TRParen])
    ensures i < p < |ts| && At(ts, p, MorePartTokens(parts[1..], KwAnd) + [TRParen])
    ensures AndRest(ts, i, acc) == AndRest(ts, p, acc + [parts[0]])
    ensures p + |MorePartTokens(parts[1..], KwAnd)| == i + |MorePartTokens(parts, KwAnd)|
    decreases parts[0], 2
  {
    hide ParseOr, ParseAnd, ParseNot, OrRest, AndRest, ParsePrimary, ParseComparison;
    var toks, tail := Tokens(parts[0]), MorePartTokens(parts[1..], KwAnd) + [TRParen];
    assert MorePartTokens(parts, KwAnd) + [TRParen] == [KwAnd] + (toks + tail);
    AtCons(ts, i, KwAnd, toks + tail);
    AtSplit(ts, i + 1, toks, tail);
    p := i + 1 + |toks|;
    ParseRendered(ts, i + 1, parts[0]);
    ConjunctStep(ts, i, acc, parts[0], p);
  }

  lemma {:induction false} ParseMoreDisjuncts(ts: seq<Token>, i: nat, parts: seq<Jql>, acc: seq<Jql>)
    requires Closed(ts) && AllRenderable(parts) && At(ts, i, MorePartTokens(parts, KwOr) + [TRParen])
    ensures i < |ts| && OrRest(ts, i, acc) == Ok((acc + parts, i + |MorePartTokens(parts, KwOr)|))
    decreases parts, 0
  {
    hide ParseOr, ParseAnd, ParseNot, OrRest, AndRest, ParsePrimary, ParseComparison;
    if |parts| == 0 {
      AtCons(ts, i, TRParen, []);
      NoMoreDisjuncts(ts, i, acc);
      assert acc + parts == acc;
    } else {
      var p := NextDisjunct(ts, i, parts, acc);
      ParseMoreDisjuncts(ts, p, parts[1..], acc + [parts[0]]);
      assert acc + [parts[0]] + parts[1..] == acc + parts;
    }
  }

  lemma {:induction false} ParseRenderedAlone(ts: seq<Token>, i: nat, e: Jql)
    requires Closed(ts) && Renderable(e) && At(ts, i, Tokens(e))
    requires i + |Tokens(e)| < |ts| && ts[i + |Tokens(e)|] != KwAnd
    ensures i < |ts| && ParseAnd(ts, i) == Ok((e, i + |Tokens(e)|))
    decreases e, 2
  {
    hide ParseOr, ParseAnd, ParseNot, OrRest, AndRest, ParsePrimary, ParseComparison;
    ParseRendered(ts, i, e);
    OneConjunct(ts, i, e, i + |Tokens(e)|);
  }

  lemma {:induction false} NextDisjunct(ts: seq<Token>, i: nat, parts: seq<Jql>, acc: seq<Jql>) returns (p: nat)
    requires Closed(ts) && |parts| > 0 && AllRenderable(parts) && At(ts, i, MorePartTokens(parts, KwOr) + [TRParen])
    ensures i < p < |ts| && At(ts, p, MorePartTokens(parts[1..], KwOr) + [TRParen])
    ensures OrRest(ts, i, acc) == OrRest(ts, p, acc + [parts[0]])
    ensures p + |MorePartTokens(parts[1..], KwOr)| == i + |MorePartTokens(parts, KwOr)|
    decreases parts[0], 3
  {
    hide ParseOr, ParseAnd, ParseNot, OrRest, AndRest, ParsePrimary, ParseComparison;
    var toks, tail := Tokens(parts[0]), MorePartTokens(parts[1..], KwOr) + [TRParen];
    assert MorePartTokens(parts, KwOr) + [TRParen] == [KwOr] + (toks + tail);
    AtCons(ts, i, KwOr, toks + tail);
    AtSplit(ts, i + 1, toks, tail);
    p := i + 1 + |toks|;
    NextSeparator(ts, p, parts[1..]);
    ParseRenderedAlone(ts, i + 1, parts[0]);
    DisjunctStep(ts, i, acc, parts[0], p);
  }

  // ---------------------------------------------------------------- whole queries

  predicate RenderableQuery(q: Query) {
    (q.expr.Some? ==> Renderable(q.expr.value)) && (q.order.Some? ==> FieldName(q.order.value.field))
  }

  function OrderText(o: JqlOrder): string {
    "ORDER " + ("BY " + (o.field + (if o.descending then " DESC" else " ASC")))
  }

  function OrderTokens(o: JqlOrder): seq<Token> {
    [KwOrder] + ([KwBy] + ([TIdent(o.field)] + [if o.descending then KwDesc else KwAsc]))
  }

  function RenderQuery(q: Query): string {
    match (q.expr, q.order)
    case (None, None) => ""
    case (Some(e), None) => Render(e)
    case (None, Some(o)) => OrderText(o)
    case (Some(e), Some(o)) => Render(e) + (" " + OrderText(o))
  }

  function QueryTokens(q: Query): seq<Token> {
    (match q.expr { case Some(e) => Tokens(e) case None => [] })
    + (match q.order { case Some(o) => OrderTokens(o) case None => [] })
  }

  lemma LexOrder(o: JqlOrder)
    requires FieldName(o.field)
    ensures LexesAs(OrderText(o), OrderTokens(o))
  {
    OrderLexes();
    ByLexes();
    AscLexes();
    DescLexes();
    FieldIsWord(o.field);
    LexWord(o.field);
    var dir := if o.descending then " DESC" else " ASC";
    var kw := if o.descending then KwDesc else KwAsc;
    LexAppend(o.field, [TIdent(o.field)], dir, [kw]);
    LexPrefix("BY ", [KwBy], o.field + dir, [TIdent(o.field)] + [kw]);
    LexPrefix("ORDER ", [KwOrder], "BY " + (o.field + dir), [KwBy] + ([TIdent(o.field)] + [kw]));
  }

  lemma LexQuery(q: Query)
    requires RenderableQuery(q)
    ensures LexFrom(RenderQuery(q), 0) == Ok(QueryTokens(q) + [TEof])
  {
    var s := RenderQuery(q);
    assert s[0..0 + |s|] == s;
    if q.expr.Some? { LexRendering(q.expr.value); }
    if q.order.Some? { LexOrder(q.order.value); }
    if q.expr.Some? && q.order.Some? {
      LexSpace();
      LexPrefix(" ", [], OrderText(q.order.value), OrderTokens(q.order.value));
      assert [] + OrderTokens(q.order.value) == OrderTokens(q.order.value);
      LexAppend(Render(q.expr.value), Tokens(q.expr.value), " " + OrderText(q.order.value), OrderTokens(q.order.value));
    }
    if q.expr.None? && q.order.None? {
      assert s == "" && QueryTokens(q) == [] && [] + [TEof] == [TEof];
    } else {
      assert LexesAs(s, QueryTokens(q)) by {
        if q.order.None? { assert QueryTokens(q) == Tokens(q.expr.value); }
        if q.expr.None? { assert QueryTokens(q) == OrderTokens(q.order.value); }
      }
      assert LexFrom(s, 0 + |s|) == Ok([TEof]);
    }
  }

  lemma ParseRenderedOrder(ts: seq<Token>, i: nat, o: JqlOrder)
    requires Closed(ts) && At(ts, i, OrderTokens(o))
    ensures i < |ts| && ts[i] == KwOrder && ParseOrder(ts, i) == Ok((Some(o), i + |OrderTokens(o)|))
  {
    var kw := if o.descending then KwDesc else KwAsc;
    AtCons(ts, i, KwOrder, [KwBy] + ([TIdent(o.field)] + [kw]));
    AtCons(ts, i + 1, KwBy, [TIdent(o.field)] + [kw]);
    AtCons(ts, i + 2, TIdent(o.field), [kw]);
    AtCons(ts, i + 3, kw, []);
  }

  lemma FirstToken(e: Jql)
    ensures Tokens(e) != [] && Tokens(e)[0] != KwOrder && Tokens(e)[0] != TEof
  {
  }

  lemma ParseQueryExpr(ts: seq<Token>, e: Jql, n: nat)
    requires Closed(ts) && Renderable(e) && At(ts, 0, Tokens(e)) && n == |Tokens(e)| < |ts|
    requires ts[n] == TEof || ts[n] == KwOrder
    ensures ParseExpr(ts) == Ok((Some(e), n))
  {
    FirstToken(e);
    assert ts[0] == ts[0..0 + n][0];
    ParseRendered(ts, 0, e);
    OneConjunct(ts, 0, e, n);
    OneDisjunct(ts, 0, e, n);
  }

  lemma ParseOrderPart(ts: seq<Token>, n: nat, order: Option<JqlOrder>)
    requires Closed(ts)
    requires At(ts, n, (match order { case Some(o) => OrderTokens(o) case None => [] }) + [TEof])
    ensures n < |ts| && (ts[n] == TEof || ts[n] == KwOrder)
    ensures ParseOrder(ts, n).Ok? && ParseOrder(ts, n).value.0 == order && ts[ParseOrder(ts, n).value.1] == TEof
  {
    match order
    case None => AtCons(ts, n, TEof, []);
    case Some(o) =>
      AtSplit(ts, n, OrderTokens(o), [TEof]);
      AtCons(ts, n + |OrderTokens(o)|, TEof, []);
      ParseRenderedOrder(ts, n, o);
  }

  lemma ParseQueryTokens(q: Query)
    requires RenderableQuery(q)
    ensures Closed(QueryTokens(q) + [TEof]) && Parse(QueryTokens(q) + [TEof]) == Ok(q)
  {
    var ts := QueryTokens(q) + [TEof];
    var expr := match q.expr { case Some(e) => Tokens(e) case None => [] };
    var order := match q.order { case Some(o) => OrderTokens(o) case None => [] };
    var n := |expr|;
    assert At(ts, n, order + [TEof]) by { assert ts[n..n + |order + [TEof]|] == order + [TEof]; }
    ParseOrderPart(ts, n, q.order);
    assert ParseExpr(ts) == Ok((q.expr, n)) by {
      if q.expr.Some? {
        assert ts[0..0 + n] == expr;
        ParseQueryExpr(ts, q.expr.value, n);
      }
    }
  }

  /** Round trip: rendering a query and reading the text back gives the query. */
  lemma TextRoundTrip(q: Query)
    requires RenderableQuery(q) && ByteLength(RenderQuery(q)) <= MAX_JQL_LEN
    ensures Lex(RenderQuery(q)).Ok? && Closed(Lex(RenderQuery(q)).value)
    ensures Parse(Lex(RenderQuery(q)).value) == Ok(q)
  {
    LexQuery(q);
    ParseQueryTokens(q);
  }
}
