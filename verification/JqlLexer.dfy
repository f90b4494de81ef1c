/** jqlTokenize: query text to tokens. */
module JqlLexer {
  import opened Prelude
  import opened Utf8
  import opened Jql

  datatype Token =
    | TIdent(text: string) | TStr(text: string) | TNumber(text: string)
    | TLParen | TRParen | TComma
    | TEq | TNe | TGt | TGte | TLt | TLte | TTilde | TNotTilde
    | KwAnd | KwOr | KwNot | KwIn | KwIs | KwEmpty | KwOrder | KwBy | KwAsc | KwDesc | KwTrue | KwFalse
    | TEof

  predicate IsDigit(c: char) { '0' <= c <= '9' }

  predicate IsAlpha(c: char) { 'a' <= c <= 'z' || 'A' <= c <= 'Z' }

  predicate IsWordChar(c: char) { IsAlpha(c) || IsDigit(c) || c == '_' }

  predicate IsSpace(c: char) { c == ' ' || c == '\t' || c == '\n' || c == '\r' }

  function UpperChar(c: char): char { if 'a' <= c <= 'z' then (c as int - 32) as char else c }

  function Upper(s: string): string { if |s| == 0 then "" else [UpperChar(s[0])] + Upper(s[1..]) }

  function Keyword(word: string): Option<Token> {
    var w := Upper(word);
    if w == "AND" then Some(KwAnd)
    else if w == "OR" then Some(KwOr)
    else if w == "NOT" then Some(KwNot)
    else if w == "IN" then Some(KwIn)
    else if w == "IS" then Some(KwIs)
    else if w == "EMPTY" then Some(KwEmpty)
    else if w == "ORDER" then Some(KwOrder)
    else if w == "BY" then Some(KwBy)
    else if w == "ASC" then Some(KwAsc)
    else if w == "DESC" then Some(KwDesc)
    else if w == "TRUE" then Some(KwTrue)
    else if w == "FALSE" then Some(KwFalse)
    else None
  }

  function WordToken(word: string): Token {
    match Keyword(word) { case Some(kw) => kw case None => TIdent(word) }
  }

  const MAX_JQL_LEN := 2000

  // ---------------------------------------------------------------- the language of tokens

  function WordEnd(s: string, i: nat): (j: nat)
    requires i <= |s|
    ensures i <= j <= |s|
    decreases |s| - i
  {
    if i < |s| && IsWordChar(s[i]) then WordEnd(s, i + 1) else i
  }

  function NumberEnd(s: string, i: nat): (j: nat)
    requires i <= |s|
    ensures i <= j <= |s|
    decreases |s| - i
  {
    if i < |s| && (IsDigit(s[i]) || s[i] == '.') then NumberEnd(s, i + 1) else i
  }

  /** The characters of a literal from `i` on and the position after its closing quote. */
  function StringFrom(s: string, i: nat, quote: char): (r: Option<(string, nat)>)
    requires i <= |s|
    ensures r.Some? ==> i < r.value.1 <= |s|
    decreases |s| - i
  {
    if i == |s| then None
    else if s[i] == '\\' && i + 1 < |s| then
      (match StringFrom(s, i + 2, quote) case None => None case Some((t, j)) => Some(([s[i + 1]] + t, j)))
    else if s[i] == quote then Some(("", i + 1))
    else (match StringFrom(s, i + 1, quote) case None => None case Some((t, j)) => Some(([s[i]] + t, j)))
  }

  predicate NextIs(s: string, i: nat, c: char) { i + 1 < |s| && s[i + 1] == c }

  /** The token that starts at the non-blank position `i`, and the position after it. */
  function TokenAt(s: string, i: nat): (r: Result<(Token, nat), JqlError>)
    requires i < |s|
    ensures r.Ok? ==> i < r.value.1 <= |s|
  {
    var c := s[i];
    if c == '(' then Ok((TLParen, i + 1))
    else if c == ')' then Ok((TRParen, i + 1))
    else if c == ',' then Ok((TComma, i + 1))
    else if c == '=' then Ok((TEq, i + 1))
    else if c == '!' then
      if NextIs(s, i, '=') then Ok((TNe, i + 2))
      else if NextIs(s, i, '~') then Ok((TNotTilde, i + 2))
      else Err(StrayBang)
    else if c == '>' then (if NextIs(s, i, '=') then Ok((TGte, i + 2)) else Ok((TGt, i + 1)))
    else if c == '<' then (if NextIs(s, i, '=') then Ok((TLte, i + 2)) else Ok((TLt, i + 1)))
    else if c == '~' then Ok((TTilde, i + 1))
    else if c == '\'' || c == '"' then
      (match StringFrom(s, i + 1, c)
       case None => Err(UnterminatedString)
       case Some((t, j)) => Ok((TStr(t), j)))
    else if IsDigit(c) || (c == '-' && i + 1 < |s| && IsDigit(s[i + 1])) then
      Ok((TNumber(s[i..NumberEnd(s, i + 1)]), NumberEnd(s, i + 1)))
    else if IsAlpha(c) || c == '_' then Ok((WordToken(s[i..WordEnd(s, i + 1)]), WordEnd(s, i + 1)))
    else Err(UnexpectedChar(c))
  }

  function Prepend(ts: seq<Token>, r: Result<seq<Token>, JqlError>): Result<seq<Token>, JqlError> {
    match r { case Err(m) => Err(m) case Ok(us) => Ok(ts + us) }
  }

  /** Every token from position `i` on, closed by the end marker. */
  function LexFrom(s: string, i: nat): Result<seq<Token>, JqlError>
    requires i <= |s|
    decreases |s| - i
  {
    if i == |s| then Ok([TEof])
    else if IsSpace(s[i]) then LexFrom(s, i + 1)
    else match TokenAt(s, i)
      case Err(m) => Err(m)
      case Ok((t, j)) => Prepend([t], LexFrom(s, j))
  }

  function Lex(s: string): Result<seq<Token>, JqlError> {
    if ByteLength(s) > MAX_JQL_LEN then Err(TooLong) else LexFrom(s, 0)
  }

  // ---------------------------------------------------------------- the index-driven tokenizer

  /** The inner loop of a quoted literal; `None` when the text ends first. */
  method ScanString(s: string, start: nat, quote: char) returns (r: Option<(string, nat)>)
    requires start <= |s|
    ensures r == StringFrom(s, start, quote)
  {
    var i := start;
    var text := "";
    assert forall t: string :: text + t == t;
    while i < |s|
      invariant start <= i <= |s|
      invariant StringFrom(s, start, quote) ==
                match StringFrom(s, i, quote) { case None => None case Some((t, j)) => Some((text + t, j)) }
      decreases |s| - i
    {
      var ch := s[i];
      ghost var before := text;
      if ch == '\\' && i + 1 < |s| {
        text := text + [s[i + 1]];
        assert forall t: string :: before + ([s[i + 1]] + t) == text + t;
        i := i + 2;
      } else if ch == quote {
        assert text + "" == text;
        return Some((text, i + 1));
      } else {
        text := text + [ch];
        assert forall t: string :: before + ([ch] + t) == text + t;
        i := i + 1;
      }
    }
    return None;
  }

  /** The token at `start`, scanning ahead with an index as the tokenizer's switch does. */
  method ScanToken(s: string, start: nat) returns (r: Result<(Token, nat), JqlError>)
    requires start < |s|
    ensures r == TokenAt(s, start)
  {
    var c := s[start];
    var i := start;
    if c == '(' { return Ok((TLParen, i + 1)); }
    if c == ')' { return Ok((TRParen, i + 1)); }
    if c == ',' { return Ok((TComma, i + 1)); }
    if c == '=' { return Ok((TEq, i + 1)); }
    if c == '!' {
      if i + 1 < |s| && s[i + 1] == '=' { return Ok((TNe, i + 2)); }
      if i + 1 < |s| && s[i + 1] == '~' { return Ok((TNotTilde, i + 2)); }
      return Err(StrayBang);
    }
    if c == '>' {
      if i + 1 < |s| && s[i + 1] == '=' { return Ok((TGte, i + 2)); }
      return Ok((TGt, i + 1));
    }
    if c == '<' {
      if i + 1 < |s| && s[i + 1] == '=' { return Ok((TLte, i + 2)); }
      return Ok((TLt, i + 1));
    }
    if c == '~' { return Ok((TTilde, i + 1)); }
    if c == '\'' || c == '"' {
      var lit := ScanString(s, i + 1, c);
      if lit.None? { return Err(UnterminatedString); }
      return Ok((TStr(lit.value.0), lit.value.1));
    }
    if IsDigit(c) || (c == '-' && i + 1 < |s| && IsDigit(s[i + 1])) {
      i := i + 1;
      while i < |s| && (IsDigit(s[i]) || s[i] == '.')
        invariant start + 1 <= i <= |s|
        invariant NumberEnd(s, start + 1) == NumberEnd(s, i)
      {
        i := i + 1;
      }
      return Ok((TNumber(s[start..i]), i));
    }
    if IsAlpha(c) || c == '_' {
      while i < |s| && IsWordChar(s[i])
        invariant start <= i <= |s|
        invariant i > start ==> WordEnd(s, start + 1) == WordEnd(s, i)
      {
        i := i + 1;
      }
      var word := s[start..i];
      return Ok((match Keyword(word) { case Some(kw) => kw case None => TIdent(word) }, i));
    }
    return Err(UnexpectedChar(c));
  }

  method Tokenize(input: string) returns (r: Result<seq<Token>, JqlError>)
    ensures r == Lex(input)
    ensures r.Ok? ==> r.value != [] && r.value[|r.value| - 1] == TEof
  {
    if ByteLength(input) > MAX_JQL_LEN { return Err(TooLong); }
    var tokens: seq<Token> := [];
    var i := 0;
    PrependNone(LexFrom(input, 0));
    while i < |input|
      invariant 0 <= i <= |input|
      invariant LexFrom(input, 0) == Prepend(tokens, LexFrom(input, i))
    {
      var c := input[i];
      if c == ' ' || c == '\t' || c == '\n' || c == '\r' {
        i := i + 1;
        continue;
      }
      var t := ScanToken(input, i);
      if t.Err? { return Err(t.error); }
      PrependTwice(tokens, [t.value.0], LexFrom(input, t.value.1));
      tokens := tokens + [t.value.0];
      i := t.value.1;
    }
    r := Ok(tokens + [TEof]);
  }

  lemma PrependNone(r: Result<seq<Token>, JqlError>)
    ensures Prepend([], r) == r
  {
    if r.Ok? { assert [] + r.value == r.value; }
  }

  lemma PrependTwice(a: seq<Token>, b: seq<Token>, r: Result<seq<Token>, JqlError>)
    ensures Prepend(a, Prepend(b, r)) == Prepend(a + b, r)
  {
    if r.Ok? { assert a + (b + r.value) == a + b + r.value; }
  }
}
