/** Go's string order, and the sorted keys of a map. */
module Ordering {

  predicate TextLess(a: string, b: string) {
    |b| > 0 && (|a| == 0 || a[0] < b[0] || (a[0] == b[0] && TextLess(a[1..], b[1..])))
  }

  lemma {:induction false} TextLessTransitive(a: string, b: string, c: string)
    requires TextLess(a, b) && TextLess(b, c)
    ensures TextLess(a, c)
    decreases |a|
  {
    if |a| > 0 && a[0] == b[0] == c[0] { TextLessTransitive(a[1..], b[1..], c[1..]); }
  }

  lemma {:induction false} TextLessTotal(a: string, b: string)
    ensures a == b || TextLess(a, b) || TextLess(b, a)
    decreases |a|
  {
    if |a| > 0 && |b| > 0 && a[0] == b[0] {
      TextLessTotal(a[1..], b[1..]);
      assert a == [a[0]] + a[1..] && b == [b[0]] + b[1..];
    }
  }

  lemma {:induction false} TextLessIrreflexive(a: string)
    ensures !TextLess(a, a)
    decreases |a|
  {
    if |a| > 0 { TextLessIrreflexive(a[1..]); }
  }

  lemma TextLessAsymmetric(a: string, b: string)
    ensures !(TextLess(a, b) && TextLess(b, a))
  {
    if TextLess(a, b) && TextLess(b, a) {
      TextLessTransitive(a, b, a);
      TextLessIrreflexive(a);
    }
  }

  /** The first difference decides, and a text comes before every longer one that begins with it. */
  lemma {:induction false} TextLessByFirstDifference(p: string, a: string, b: string)
    requires |b| > 0 && (|a| > 0 ==> a[0] != b[0])
    ensures TextLess(p + a, p + b) <==> |a| == 0 || a[0] < b[0]
    decreases |p|
  {
    if |p| == 0 {
      assert p + a == a && p + b == b;
    } else {
      assert (p + a)[1..] == p[1..] + a && (p + b)[1..] == p[1..] + b;
      TextLessByFirstDifference(p[1..], a, b);
    }
  }

  ghost predicate Ascending(s: seq<string>) { forall i, j :: 0 <= i < j < |s| ==> TextLess(s[i], s[j]) }

  lemma AscendingDistinct(s: seq<string>, x: string)
    requires Ascending(s) && |s| > 0 && x in s[..|s| - 1]
    ensures x != s[|s| - 1]
  {
    var i :| 0 <= i < |s| - 1 && s[..|s| - 1][i] == x;
    assert TextLess(s[i], s[|s| - 1]);
    TextLessIrreflexive(x);
  }

  method Least(names: set<string>) returns (least: string)
    requires names != {}
    ensures least in names && forall n :: n in names && n != least ==> TextLess(least, n)
  {
    least :| least in names;
    var left := names - {least};
    while left != {}
      invariant left <= names && least in names && least !in left
      invariant forall n :: n in names && n !in left && n != least ==> TextLess(least, n)
      decreases |left|
    {
      var n :| n in left;
      left := left - {n};
      TextLessTotal(least, n);
      if TextLess(n, least) {
        forall m | m in names && m !in left && m != n ensures TextLess(n, m) {
          if m != least { TextLessTransitive(n, least, m); }
        }
        least := n;
      }
    }
  }

  method SortedKeys(names: set<string>) returns (keys: seq<string>)
    ensures Ascending(keys) && forall n :: n in keys <==> n in names
  {
    keys := [];
    var left := names;
    while left != {}
      invariant left <= names && Ascending(keys)
      invariant forall n :: n in keys <==> n in names && n !in left
      invariant forall i, n :: 0 <= i < |keys| && n in left ==> TextLess(keys[i], n)
      decreases |left|
    {
      var least := Least(left);
      keys := keys + [least];
      left := left - {least};
    }
  }

  lemma LeastExists(names: set<string>) returns (least: string)
    requires names != {}
    ensures least in names && forall n :: n in names && n != least ==> TextLess(least, n)
    decreases |names|
  {
    var one :| one in names;
    if names == {one} {
      least := one;
    } else {
      assert names - {one} != {};
      least := LeastExists(names - {one});
      TextLessTotal(one, least);
      if TextLess(one, least) {
        forall m | m in names && m != one ensures TextLess(one, m) {
          if m != least { TextLessTransitive(one, least, m); }
        }
        least := one;
      }
    }
  }

  lemma AscendingExists(names: set<string>) returns (keys: seq<string>)
    ensures Ascending(keys) && forall n :: n in keys <==> n in names
    decreases |names|
  {
    if names == {} {
      keys := [];
    } else {
      var least := LeastExists(names);
      var rest := AscendingExists(names - {least});
      keys := [least] + rest;
      forall i, j | 0 <= i < j < |keys| ensures TextLess(keys[i], keys[j]) {
        assert keys[j] == rest[j - 1] && rest[j - 1] in rest;
      }
    }
  }
}
