/** Scope strings: space-separated tokens, subset tests and the union a consent records. */
module OAuthScope {
  import opened Prelude
  import opened Normalize

  function ScopeTokens(scope: string): seq<string> { Fields(scope) }

  /** Every requested token is allowed; order and repetition play no part. */
  predicate Subset(requested: string, allowed: string) {
    forall t :: t in ScopeTokens(requested) ==> t in ScopeTokens(allowed)
  }

  lemma SubsetTransitive(a: string, b: string, c: string)
    requires Subset(a, b) && Subset(b, c)
    ensures Subset(a, c)
  {
  }

  method ScopeIsSubset(requested: string, allowed: string) returns (r: bool)
    ensures r == Subset(requested, allowed)
  {
    var allowedTokens := ScopeTokens(allowed);
    var allowedSet: set<string> := {};
    var i := 0;
    while i < |allowedTokens|
      invariant 0 <= i <= |allowedTokens|
      invariant allowedSet == set t | t in allowedTokens[..i]
    {
      assert allowedTokens[..i + 1] == allowedTokens[..i] + [allowedTokens[i]];
      allowedSet := allowedSet + {allowedTokens[i]};
      i := i + 1;
    }
    assert allowedTokens[..|allowedTokens|] == allowedTokens;
    var tokens := ScopeTokens(requested);
    i := 0;
    while i < |tokens|
      invariant 0 <= i <= |tokens|
      invariant forall k :: 0 <= k < i ==> tokens[k] in allowedSet
    {
      if tokens[i] !in allowedSet { return false; }
      i := i + 1;
    }
    return true;
  }

  // ---------------------------------------------------------------- tokens survive being joined and split

  predicate IsWord(w: string) { |w| > 0 && forall k :: 0 <= k < |w| ==> !IsBlank(w[k]) }

  lemma {:induction false} WordsAreWords(s: string, word: string)
    requires word == "" || IsWord(word)
    ensures forall w :: w in Words(s, word) ==> IsWord(w)
    decreases |s|
  {
    if |s| > 0 {
      if IsBlank(s[0]) {
        WordsAreWords(s[1..], "");
      } else {
        WordsAreWords(s[1..], word + [s[0]]);
      }
    }
  }

  lemma {:induction false} WordsThrough(w: string, rest: string, word: string)
    requires forall k :: 0 <= k < |w| ==> !IsBlank(w[k])
    ensures Words(w + rest, word) == Words(rest, word + w)
    decreases |w|
  {
    if |w| == 0 {
      assert w + rest == rest && word + w == word;
    } else {
      assert (w + rest)[1..] == w[1..] + rest && (w + rest)[0] == w[0];
      WordsThrough(w[1..], rest, word + [w[0]]);
      assert word + [w[0]] + w[1..] == word + w;
    }
  }

  /** Splitting what was joined gives the tokens back. */
  lemma {:induction false} FieldsOfJoin(words: seq<string>)
    requires forall w :: w in words ==> IsWord(w)
    ensures Fields(Join(words, " ")) == words
    decreases |words|
  {
    if |words| == 1 {
      assert words[0] in words;
      WordsThrough(words[0], "", "");
      assert words[0] + "" == words[0] && "" + words[0] == words[0];
      assert words == [words[0]];
    } else if |words| > 1 {
      assert words[0] in words;
      var rest := Join(words[1..], " ");
      FieldsOfJoin(words[1..]);
      WordsThrough(words[0], " " + rest, "");
      assert words[0] + " " + rest == words[0] + (" " + rest) && "" + words[0] == words[0];
      assert (" " + rest)[1..] == rest;
      assert words == [words[0]] + words[1..];
    }
  }

  // ---------------------------------------------------------------- widening a recorded consent

  /** The tokens already there, then each new one once. */
  function Widened(tokens: seq<string>, more: seq<string>): seq<string>
    decreases |more|
  {
    if |more| == 0 then tokens
    else Widened(if more[0] in tokens then tokens else tokens + [more[0]], more[1..])
  }

  lemma {:induction false} WidenedHas(tokens: seq<string>, more: seq<string>)
    ensures forall t :: t in Widened(tokens, more) <==> t in tokens || t in more
    decreases |more|
  {
    if |more| > 0 {
      WidenedHas(if more[0] in tokens then tokens else tokens + [more[0]], more[1..]);
      assert more == [more[0]] + more[1..];
    }
  }

  function MergedScope(existing: Option<string>, approved: string): string {
    match existing
    case None => approved
    case Some(e) => Join(Widened(ScopeTokens(e), ScopeTokens(approved)), " ")
  }

  /** The merge loop of RecordConsent. */
  method MergeScope(existing: Option<string>, approved: string) returns (merged: string)
    ensures merged == MergedScope(existing, approved)
  {
    if existing.None? { return approved; }
    var tokens := ScopeTokens(existing.value);
    var seen := set t | t in tokens;
    var more := ScopeTokens(approved);
    ghost var before := tokens;
    var i := 0;
    assert more[0..] == more;
    while i < |more|
      invariant 0 <= i <= |more|
      invariant seen == set t | t in tokens
      invariant Widened(before, more) == Widened(tokens, more[i..])
    {
      assert more[i..][1..] == more[i + 1..] && more[i..][0] == more[i];
      if more[i] !in seen {
        tokens := tokens + [more[i]];
        seen := seen + {more[i]};
      }
      i := i + 1;
    }
    return Join(tokens, " ");
  }

  /** A recorded consent is widened, never replaced: it holds exactly what was there and what was approved. */
  lemma MergedIsUnion(existing: Option<string>, approved: string)
    ensures Subset(approved, MergedScope(existing, approved))
    ensures existing.Some? ==> Subset(existing.value, MergedScope(existing, approved))
    ensures forall t :: t in ScopeTokens(MergedScope(existing, approved)) ==>
              t in ScopeTokens(approved) || (existing.Some? && t in ScopeTokens(existing.value))
  {
    if existing.Some? {
      var tokens, more := ScopeTokens(existing.value), ScopeTokens(approved);
      WordsAreWords(existing.value, "");
      WordsAreWords(approved, "");
      WidenedHas(tokens, more);
      FieldsOfJoin(Widened(tokens, more));
    }
  }
}
