/**
 * String primitives with the meaning JavaScript gives them: `startsWith`,
 * `endsWith`, `includes`, `toLowerCase` on ASCII letters, the `\s` character
 * class, `indexOf`/`lastIndexOf` on one character, a character-wise
 * `split(a).join(b)` and the non-global `replace(c, r)` that rewrites only
 * the first occurrence.
 */
module Strings {
  import opened Wrappers

  predicate StartsWith(s: string, p: string) {
    |p| <= |s| && s[..|p|] == p
  }

  predicate EndsWith(s: string, p: string) {
    |p| <= |s| && s[|s| - |p|..] == p
  }

  /** `s.includes(p)`: some position of `s` starts an occurrence of `p`. */
  predicate Contains(s: string, p: string)
    decreases |s|
  {
    StartsWith(s, p) || (|s| > 0 && Contains(s[1..], p))
  }

  lemma {:induction false} ContainsAt(s: string, p: string, i: nat)
    requires i <= |s| && StartsWith(s[i..], p)
    ensures Contains(s, p)
    decreases i
  {
    if i > 0 {
      assert s[1..][i - 1..] == s[i..];
      ContainsAt(s[1..], p, i - 1);
    }
  }

  lemma {:induction false} ContainsWitness(s: string, p: string) returns (i: nat)
    requires Contains(s, p)
    ensures i <= |s| && StartsWith(s[i..], p)
    decreases |s|
  {
    if StartsWith(s, p) {
      i := 0;
    } else {
      var j := ContainsWitness(s[1..], p);
      assert s[1..][j..] == s[j + 1..];
      i := j + 1;
    }
  }

  /** `toLowerCase` on one character, for ASCII letters. */
  function LowerChar(c: char): char
  {
    if 'A' <= c <= 'Z' then (c as int + 32) as char else c
  }

  /** `toLowerCase`, folding ASCII letters. */
  function Lower(s: string): (r: string)
    ensures |r| == |s| && forall i :: 0 <= i < |s| ==> r[i] == LowerChar(s[i])
  {
    if s == [] then [] else [LowerChar(s[0])] + Lower(s[1..])
  }

  /** The ECMAScript `\s` class: WhiteSpace and LineTerminator code points. */
  predicate IsSpace(c: char) {
    c == ' ' || c == '\t' || c == '\n' || c == '\U{000B}' || c == '\U{000C}' || c == '\r'
    || c == '\U{00A0}' || c == '\U{1680}' || ('\U{2000}' <= c && c <= '\U{200A}')
    || c == '\U{2028}' || c == '\U{2029}' || c == '\U{202F}' || c == '\U{205F}'
    || c == '\U{3000}' || c == '\U{FEFF}'
  }

  /** The end of the longest run of `\s` characters that starts at `k`. */
  function WsEnd(s: string, k: nat): (e: nat)
    requires k <= |s|
    ensures k <= e <= |s|
    ensures forall i :: k <= i < e ==> IsSpace(s[i])
    ensures e < |s| ==> !IsSpace(s[e])
    decreases |s| - k
  {
    if k < |s| && IsSpace(s[k]) then WsEnd(s, k + 1) else k
  }

  /** Every character of `w` is whitespace. */
  predicate AllSpace(w: string) {
    forall i :: 0 <= i < |w| ==> IsSpace(w[i])
  }

  /** The whitespace run at `k` is exactly `w` when a non-space (or the end) follows it. */
  lemma WsEndOver(s: string, k: nat, w: string, rest: string)
    requires k + |w| + |rest| == |s| && s[k..] == w + rest
    requires AllSpace(w) && (rest == [] || !IsSpace(rest[0]))
    ensures WsEnd(s, k) == k + |w|
    decreases |w|
  {
    if w != [] {
      assert s[k] == w[0];
      assert s[k + 1..] == w[1..] + rest;
      WsEndOver(s, k + 1, w[1..], rest);
    } else {
      assert s[k..] == rest;
    }
  }

  /** Splits a text before the first occurrence of `c`, if any. */
  lemma SplitAtNext(u: string, c: char) returns (w: string, z: string)
    ensures u == w + z && c !in w && (z == [] || z[0] == c)
  {
    match IndexOf(u, c)
    case None =>
      w, z := u, [];
    case Some(i) =>
      w, z := u[..i], u[i..];
      assert u == w + z;
  }

  /** `s.indexOf(c)`, with `None` for -1. */
  function IndexOf(s: string, c: char): (r: Option<nat>)
    ensures r.None? <==> c !in s
    ensures r.Some? ==> r.value < |s| && s[r.value] == c && c !in s[..r.value]
  {
    if s == [] then None
    else if s[0] == c then Some(0)
    else match IndexOf(s[1..], c)
      case None => None
      case Some(i) => Some(i + 1)
  }

  /** `s.lastIndexOf(c)`, with `None` for -1. */
  function LastIndexOf(s: string, c: char): (r: Option<nat>)
    ensures r.None? <==> c !in s
    ensures r.Some? ==> r.value < |s| && s[r.value] == c && c !in s[r.value + 1..]
  {
    if s == [] then None
    else if s[|s| - 1] == c then Some(|s| - 1)
    else
      assert s == s[..|s| - 1] + [s[|s| - 1]];
      LastIndexOf(s[..|s| - 1], c)
  }

  /** `s.split(a).join(b)` for one-character `a` and `b`. */
  function MapChar(s: string, a: char, b: char): (r: string)
    ensures |r| == |s|
    ensures forall i :: 0 <= i < |s| ==> r[i] == if s[i] == a then b else s[i]
  {
    seq(|s|, i requires 0 <= i < |s| => if s[i] == a then b else s[i])
  }

  /** `s.replace(c, r)` with a one-character string pattern: only the first `c` is rewritten. */
  function ReplaceFirst(s: string, c: char, r: string): string
  {
    if s == [] then []
    else if s[0] == c then r + s[1..]
    else [s[0]] + ReplaceFirst(s[1..], c, r)
  }

  /** Only the first `c` is rewritten; a string without `c` is returned as it is. */
  lemma {:induction false} ReplaceFirstSpec(s: string, c: char, r: string)
    ensures c !in s ==> ReplaceFirst(s, c, r) == s
    ensures c in s ==> var i := IndexOf(s, c).value;
      ReplaceFirst(s, c, r) == s[..i] + r + s[i + 1..]
  {
    if s != [] && s[0] != c {
      ReplaceFirstSpec(s[1..], c, r);
      if c in s {
        var i := IndexOf(s[1..], c).value;
        assert s[1..][..i] == s[1..i + 1];
        assert s[1..][i + 1..] == s[i + 2..];
        assert [s[0]] + s[1..i + 1] == s[..i + 1];
      }
    }
  }

  lemma {:induction false} ReplaceFirstSkip(a: string, b: string, c: char, r: string)
    requires c !in a
    ensures ReplaceFirst(a + b, c, r) == a + ReplaceFirst(b, c, r)
    decreases |a|
  {
    if a != [] {
      var s := a + b;
      assert s != [] && s[0] == a[0] && a[0] != c;
      assert s[1..] == a[1..] + b;
      assert c !in a[1..];
      calc {
        ReplaceFirst(s, c, r);
        [a[0]] + ReplaceFirst(s[1..], c, r);
        { ReplaceFirstSkip(a[1..], b, c, r); }
        [a[0]] + (a[1..] + ReplaceFirst(b, c, r));
        { assert a == [a[0]] + a[1..]; }
        a + ReplaceFirst(b, c, r);
      }
    } else {
      assert a + b == b;
    }
  }

  lemma ReplaceFirstHere(b: string, c: char, r: string)
    ensures ReplaceFirst([c] + b, c, r) == r + b
  {
    assert ([c] + b)[1..] == b;
  }

  lemma MapCharConcat(x: string, y: string, a: char, b: char)
    ensures MapChar(x + y, a, b) == MapChar(x, a, b) + MapChar(y, a, b)
  {
  }

  lemma MapCharAbsent(s: string, a: char, b: char)
    requires a !in s
    ensures MapChar(s, a, b) == s
  {
  }

  lemma MapCharKeepsOut(s: string, a: char, b: char, d: char)
    requires d !in s && d != b
    ensures d !in MapChar(s, a, b)
  {
    var m := MapChar(s, a, b);
    forall i | 0 <= i < |m| ensures m[i] != d { }
  }

  /** `s.replace(c, r)` when the first `c` sits right after `x`. */
  lemma ReplaceFirstAt(x: string, y: string, c: char, r: string)
    requires c !in x
    ensures ReplaceFirst(x + [c] + y, c, r) == x + r + y
  {
    assert x + [c] + y == x + ([c] + y);
    ReplaceFirstSkip(x, [c] + y, c, r);
    ReplaceFirstHere(y, c, r);
  }

  lemma EndsWithConcat(x: string, y: string)
    ensures EndsWith(x + y, y)
  {
    assert (x + y)[|x + y| - |y|..] == y;
  }

  lemma EndsWithExtend(x: string, y: string, p: string)
    requires EndsWith(y, p)
    ensures EndsWith(x + y, p)
  {
    assert (x + y)[|x + y| - |p|..] == y[|y| - |p|..];
  }

  lemma StartsWithConcat(x: string, y: string)
    ensures StartsWith(x + y, x)
  {
    assert (x + y)[..|x|] == x;
  }

  lemma LastIndexOfAt(s: string, c: char, i: nat)
    requires i < |s| && s[i] == c && c !in s[i + 1..]
    ensures LastIndexOf(s, c) == Some(i)
  {
  }

  /** A text framed by `p` and `q` starts with `p`, ends with `q`, and holds `x` between them. */
  lemma Framed(p: string, x: string, q: string)
    ensures StartsWith(p + x + q, p) && EndsWith(p + x + q, q)
    ensures (p + x + q)[|p|..|p + x + q| - |q|] == x
  {
    StartsWithConcat(p, x + q);
    assert p + x + q == p + (x + q);
    EndsWithConcat(p + x, q);
  }

  /** A text whose last part is `i + e` ends with `e`. */
  lemma EndsWithLast(t: string, i: string, e: string)
    ensures EndsWith(t + (i + e), e)
  {
    EndsWithConcat(t + i, e);
    assert t + (i + e) == t + i + e;
  }
}
