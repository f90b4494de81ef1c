/** Small shared vocabulary: optional values, results, and "this piece stands at this position". */
module Prelude {

  datatype Option<+T> = None | Some(value: T)

  datatype Result<+T, +E> = Ok(value: T) | Err(error: E)

  /** `piece` occupies `s` from position `i` on. */
  ghost predicate At<T>(s: seq<T>, i: nat, piece: seq<T>) {
    i + |piece| <= |s| && s[i..i + |piece|] == piece
  }

  lemma AtSplit<T>(s: seq<T>, i: nat, a: seq<T>, b: seq<T>)
    requires At(s, i, a + b)
    ensures At(s, i, a) && At(s, i + |a|, b)
  {
    var n := |a + b|;
    assert s[i..i + n][..|a|] == s[i..i + |a|];
    assert s[i..i + n][|a|..] == s[i + |a|..i + n];
  }

  lemma AtCons<T>(s: seq<T>, i: nat, x: T, b: seq<T>)
    requires At(s, i, [x] + b)
    ensures i < |s| && s[i] == x && At(s, i + 1, b)
  {
    AtSplit(s, i, [x], b);
    assert s[i..i + 1] == [x];
  }

  /** The parts in order with `sep` between neighbours. */
  function Join<T>(parts: seq<seq<T>>, sep: seq<T>): seq<T> {
    if |parts| == 0 then []
    else if |parts| == 1 then parts[0]
    else parts[0] + sep + Join(parts[1..], sep)
  }
}
