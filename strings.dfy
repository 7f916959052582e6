/**
 * The string operations of Python's standard library that the sync code relies on:
 * `sep.join(parts)`, `s.split(c)`, `s.split(c, 1)`, `str.startswith`, decimal
 * formatting of a natural number and two-argument `os.path.join` (POSIX flavour).
 */
module Strings {
  import opened Wrappers

  predicate StartsWith(s: string, prefix: string)
  {
    |prefix| <= |s| && s[..|prefix|] == prefix
  }

  /** `sep.join(parts)` */
  function Join(parts: seq<string>, sep: string): string
  {
    if |parts| == 0 then ""
    else if |parts| == 1 then parts[0]
    else parts[0] + sep + Join(parts[1..], sep)
  }

  /** `s.split(c)` for a one-character separator: the pieces between the occurrences of `c`. */
  function Split(s: string, c: char): (parts: seq<string>)
    ensures |parts| > 0
  {
    if s == [] then [""]
    else
      var rest := Split(s[1..], c);
      if s[0] == c then [""] + rest else [[s[0]] + rest[0]] + rest[1..]
  }

  /** `s.split(c, 1)`: the text before the first `c` and, when there is a `c`, the text after it. */
  function SplitOnce(s: string, c: char): (r: (string, Option<string>))
    ensures r.1.None? ==> r.0 == s && c !in s
    ensures r.1.Some? ==> s == r.0 + [c] + r.1.value && c !in r.0
  {
    if s == [] then ("", None)
    else if s[0] == c then ("", Some(s[1..]))
    else
      var (head, tail) := SplitOnce(s[1..], c);
      ([s[0]] + head, tail)
  }

  /** A piece without the separator splits to itself. */
  lemma {:induction false} SplitWithoutSeparator(a: string, c: char)
    requires c !in a
    ensures Split(a, c) == [a]
  {
    if a != [] {
      SplitWithoutSeparator(a[1..], c);
      assert [a[0]] + a[1..] == a;
    }
  }

  /** Splitting `a + c + t`, where `a` holds no `c`, gives `a` followed by the pieces of `t`. */
  lemma {:induction false} SplitAfterPiece(a: string, c: char, t: string)
    requires c !in a
    ensures Split(a + [c] + t, c) == [a] + Split(t, c)
  {
    var s := a + [c] + t;
    if a == [] {
      assert s[1..] == t;
    } else {
      assert s[1..] == a[1..] + [c] + t;
      SplitAfterPiece(a[1..], c, t);
      assert [a[0]] + a[1..] == a;
    }
  }

  /** `s.split(c, 1)` takes off the first piece of `s.split(c)`. */
  lemma SplitOnceIsFirstPiece(s: string, c: char)
    ensures SplitOnce(s, c).1.None? ==> Split(s, c) == [s]
    ensures SplitOnce(s, c).1.Some? ==>
      Split(s, c) == [SplitOnce(s, c).0] + Split(SplitOnce(s, c).1.value, c)
  {
    var (head, tail) := SplitOnce(s, c);
    if tail.None? {
      SplitWithoutSeparator(s, c);
    } else {
      SplitAfterPiece(head, c, tail.value);
    }
  }

  /** Joining with `c` and splitting on `c` gives the parts back when no part holds a `c`. */
  lemma {:induction false} SplitJoin(parts: seq<string>, c: char)
    requires |parts| > 0
    requires forall i :: 0 <= i < |parts| ==> c !in parts[i]
    ensures Split(Join(parts, [c]), c) == parts
  {
    if |parts| == 1 {
      SplitWithoutSeparator(parts[0], c);
    } else {
      SplitJoin(parts[1..], c);
      SplitAfterPiece(parts[0], c, Join(parts[1..], [c]));
      assert [parts[0]] + parts[1..] == parts;
    }
  }

  function DigitChar(d: nat): char
    requires d < 10
  {
    (48 + d) as char
  }

  /** `'%d' % n` for a natural number: its decimal digits, most significant first. */
  function NatToString(n: nat): (s: string)
    ensures |s| >= 1
    ensures n >= 10 ==> |s| >= 2
  {
    if n < 10 then [DigitChar(n)] else NatToString(n / 10) + [DigitChar(n % 10)]
  }

  /** Different numbers have different decimal forms. */
  lemma {:induction false} NatToStringInjective(a: nat, b: nat)
    requires NatToString(a) == NatToString(b)
    ensures a == b
  {
    if a < 10 && b < 10 {
      assert NatToString(a)[0] == DigitChar(a);
      assert NatToString(b)[0] == DigitChar(b);
    } else if a >= 10 && b >= 10 {
      var sa, sb := NatToString(a), NatToString(b);
      assert sa[|sa| - 1] == DigitChar(a % 10);
      assert sb[|sb| - 1] == DigitChar(b % 10);
      assert sa[..|sa| - 1] == NatToString(a / 10);
      assert sb[..|sb| - 1] == NatToString(b / 10);
      NatToStringInjective(a / 10, b / 10);
    }
  }

  /** `os.path.join(a, b)` on POSIX: an absolute `b` replaces `a`; otherwise one `/` separates them. */
  function PathJoin(a: string, b: string): string
  {
    if StartsWith(b, "/") then b
    else if a == [] || a[|a| - 1] == '/' then a + b
    else a + "/" + b
  }

  /** With the directory fixed, joining is one-to-one on names that agree on being absolute. */
  lemma PathJoinInjective(a: string, b1: string, b2: string)
    requires StartsWith(b1, "/") == StartsWith(b2, "/")
    requires PathJoin(a, b1) == PathJoin(a, b2)
    ensures b1 == b2
  {
    if !StartsWith(b1, "/") {
      var p := if a == [] || a[|a| - 1] == '/' then a else a + "/";
      assert PathJoin(a, b1) == p + b1 && PathJoin(a, b2) == p + b2;
      assert b1 == (p + b1)[|p|..];
      assert b2 == (p + b2)[|p|..];
    }
  }
}
