/** Text as the bytes that length limits and hashes count. */
module Utf8 {

  function CharBytes(c: char): (n: nat)
    ensures 1 <= n <= 4
  {
    var v := c as int;
    if v < 0x80 then 1 else if v < 0x800 then 2 else if v < 0x10000 then 3 else 4
  }

  /** Bytes the text takes in UTF-8. */
  function ByteLength(s: string): nat {
    if |s| == 0 then 0 else CharBytes(s[0]) + ByteLength(s[1..])
  }

  lemma {:induction false} ByteLengthConcat(a: string, b: string)
    ensures ByteLength(a + b) == ByteLength(a) + ByteLength(b)
    decreases |a|
  {
    if |a| == 0 {
      assert a + b == b;
    } else {
      ByteLengthConcat(a[1..], b);
      assert (a + b)[1..] == a[1..] + b;
    }
  }

  function EncodeChar(c: char): seq<bv8> {
    var v := c as int;
    if v < 0x80 then [v as bv8]
    else if v < 0x800 then [(0xC0 + v / 0x40) as bv8, (0x80 + v % 0x40) as bv8]
    else if v < 0x10000 then [(0xE0 + v / 0x1000) as bv8, (0x80 + v / 0x40 % 0x40) as bv8, (0x80 + v % 0x40) as bv8]
    else [(0xF0 + v / 0x40000 % 8) as bv8, (0x80 + v / 0x1000 % 0x40) as bv8, (0x80 + v / 0x40 % 0x40) as bv8,
      (0x80 + v % 0x40) as bv8]
  }

  function Encode(s: string): seq<bv8> {
    if |s| == 0 then [] else EncodeChar(s[0]) + Encode(s[1..])
  }

  /** The longest prefix of whole characters that fits into `keep` bytes. */
  function TakeBytes(s: string, keep: nat): (r: string)
    ensures ByteLength(r) <= keep && r <= s
  {
    if |s| == 0 || CharBytes(s[0]) > keep then "" else [s[0]] + TakeBytes(s[1..], keep - CharBytes(s[0]))
  }

  /** No longer prefix fits. */
  lemma {:induction false} TakeBytesIsLongest(s: string, keep: nat)
    ensures var r := TakeBytes(s, keep); |r| < |s| ==> ByteLength(s[..|r| + 1]) > keep
    decreases |s|
  {
    var r := TakeBytes(s, keep);
    if |r| < |s| {
      if CharBytes(s[0]) <= keep {
        TakeBytesIsLongest(s[1..], keep - CharBytes(s[0]));
        assert s[..|r| + 1][1..] == s[1..][..|r|];
      } else {
        assert s[..1] == [s[0]];
      }
    }
  }
}
