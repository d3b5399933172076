/**
 * The import rewriter: in JavaScript bodies a bare module specifier after
 * `from` is redirected to the `/@modules/` resolver, and the
 * `process.env.NODE_ENV` token is replaced by the development literal.
 * Both regular-expression replacements are written as left-to-right scanners.
 */
module Imports {
  import opened Wrappers
  import opened Strings
  import Sfc
  import Resolver

  predicate IsQuote(c: char) { c == '\'' || c == '"' }

  /** The first character of a relative or absolute specifier. */
  predicate IsPathStart(c: char) { c == '.' || c == '/' }

  /**
   * A character that can neither continue a `from\s+['"]` match nor make
   * its lookahead fail: scanning is the same on both sides of it.
   */
  predicate Stops(c: char) {
    c != 'r' && c != 'o' && c != 'm' && !IsSpace(c) && !IsQuote(c) && !IsPathStart(c)
  }

  /**
   * Where a match of `from\s+['"](?![\.\/])` at the head of `s` ends; at the
   * end of the text the negative lookahead succeeds.
   */
  function BareImportEnd(s: string): (r: Option<nat>)
    ensures r.Some? ==> 6 <= r.value <= |s|
  {
    if !StartsWith(s, "from") then None
    else
      var e := WsEnd(s, 4);
      if e == 4 || e == |s| || !IsQuote(s[e]) then None
      else if e + 1 < |s| && IsPathStart(s[e + 1]) then None
      else Some(e + 1)
  }

  /** A match is `from`, at least one whitespace character, a quote, and no `.` or `/` after it. */
  lemma BareImportEndSpec(s: string)
    ensures BareImportEnd(s).Some? <==> (StartsWith(s, "from") && 4 < WsEnd(s, 4) < |s| && IsQuote(s[WsEnd(s, 4)])
      && (WsEnd(s, 4) + 1 == |s| || !IsPathStart(s[WsEnd(s, 4) + 1])))
    ensures BareImportEnd(s).Some? ==> BareImportEnd(s).value == WsEnd(s, 4) + 1
  {
  }

  /** `content.replace(/(from\s+['"])(?![\.\/])/g, '$1/@modules/')`. */
  function InsertModulesPrefix(s: string): string
    decreases |s|
  {
    if s == [] then []
    else match BareImportEnd(s)
      case Some(e) => s[..e] + Resolver.ModulesPrefix + InsertModulesPrefix(s[e..])
      case None => [s[0]] + InsertModulesPrefix(s[1..])
  }

  /** The number of places the rewrite inserts the prefix. */
  function MatchCount(s: string): nat
    decreases |s|
  {
    if s == [] then 0
    else match BareImportEnd(s)
      case Some(e) => 1 + MatchCount(s[e..])
      case None => MatchCount(s[1..])
  }

  lemma StepMatch(s: string, e: nat)
    requires BareImportEnd(s) == Some(e)
    ensures InsertModulesPrefix(s) == s[..e] + Resolver.ModulesPrefix + InsertModulesPrefix(s[e..])
  {
  }

  lemma StepNoMatch(s: string)
    requires s != [] && BareImportEnd(s) == None
    ensures InsertModulesPrefix(s) == [s[0]] + InsertModulesPrefix(s[1..])
  {
  }

  /** Each match adds the ten characters of the prefix and nothing else changes length. */
  lemma {:induction false} InsertLength(s: string)
    ensures |InsertModulesPrefix(s)| == |s| + 10 * MatchCount(s)
    decreases |s|
  {
    if s != [] {
      match BareImportEnd(s)
      case Some(e) => InsertLength(s[e..]);
      case None => InsertLength(s[1..]);
    }
  }

  /** The rewrite keeps the first character. */
  lemma InsertHead(s: string)
    requires s != []
    ensures InsertModulesPrefix(s) != [] && InsertModulesPrefix(s)[0] == s[0]
  {
  }

  lemma NotFrom(s: string)
    requires s != [] && s[0] != 'f'
    ensures BareImportEnd(s) == None
  {
    assert !StartsWith(s, "from") by {
      if |s| >= 4 { assert s[..4][0] == s[0]; }
    }
  }

  /** Text without an `f` cannot start a match and passes through. */
  lemma {:induction false} SkipNoF(t: string, w: string)
    requires 'f' !in t
    ensures InsertModulesPrefix(t + w) == t + InsertModulesPrefix(w)
    decreases |t|
  {
    if t == [] {
      assert t + w == w;
    } else {
      var s := t + w;
      assert s[0] == t[0];
      assert s[1..] == t[1..] + w;
      NotFrom(s);
      StepNoMatch(s);
      SkipNoF(t[1..], w);
      Regroup3(InsertModulesPrefix(s), [t[0]], InsertModulesPrefix(t[1..] + w), t[1..], InsertModulesPrefix(w));
      assert [t[0]] + t[1..] == t;
    }
  }

  /** Text without the word `from` passes through, when what follows cannot complete the word. */
  lemma {:induction false} SkipNoFrom(t: string, w: string)
    requires !Contains(t, "from") && (w == [] || Stops(w[0]))
    ensures InsertModulesPrefix(t + w) == t + InsertModulesPrefix(w)
    decreases |t|
  {
    if t == [] {
      assert t + w == w;
    } else {
      var s := t + w;
      assert s[1..] == t[1..] + w;
      FromNotCompleted(t, w);
      assert !Contains(t[1..], "from");
      StepNoMatch(s);
      SkipNoFrom(t[1..], w);
      Regroup3(InsertModulesPrefix(s), [t[0]], InsertModulesPrefix(t[1..] + w), t[1..], InsertModulesPrefix(w));
      assert [t[0]] + t[1..] == t;
    }
  }

  lemma FromNotCompleted(t: string, w: string)
    requires t != [] && !Contains(t, "from") && (w == [] || Stops(w[0]))
    ensures BareImportEnd(t + w) == None
  {
    var s := t + w;
    assert !StartsWith(t, "from");
    if |t| >= 4 {
      assert s[..4] == t[..4];
    } else if |s| >= 4 {
      assert s[|t|] == w[0];
      assert s[..4][|t|] == s[|t|];
    }
  }

  /** A text without the word `from` is left unchanged. */
  lemma WithoutFrom(t: string)
    requires !Contains(t, "from")
    ensures InsertModulesPrefix(t) == t
  {
    SkipNoFrom(t, []);
    assert t + [] == t;
  }

  /** No match of `from\s+['"]` followed by a bare specifier begins anywhere in `t`. */
  predicate NoMatchIn(t: string) {
    forall i :: 0 <= i < |t| ==> BareImportEnd(t[i..]) == None
  }

  /** A text without whitespace holds no match: `from` is never followed by `\s` in it. */
  lemma SpaceFreeNoMatch(t: string)
    requires forall i :: 0 <= i < |t| ==> !IsSpace(t[i])
    ensures NoMatchIn(t)
  {
    forall i | 0 <= i < |t|
      ensures BareImportEnd(t[i..]) == None
    {
      var s := t[i..];
      if StartsWith(s, "from") && 4 < |s| {
        assert s[4] == t[i + 4];
      }
    }
  }

  /** A text without the word `from` holds no match. */
  lemma FromFreeNoMatch(t: string)
    requires !Contains(t, "from")
    ensures NoMatchIn(t)
  {
    forall i | 0 <= i < |t|
      ensures BareImportEnd(t[i..]) == None
    {
      if StartsWith(t[i..], "from") {
        ContainsAt(t, "from", i);
      }
    }
  }

  /** A text in which no match begins passes through, when what follows cannot continue a match. */
  /** A match-free text stays match-free without its first character. */
  lemma NoMatchTail(t: string)
    requires t != [] && NoMatchIn(t)
    ensures NoMatchIn(t[1..])
  {
    forall i | 0 <= i < |t[1..]|
      ensures BareImportEnd(t[1..][i..]) == None
    {
      assert t[1..][i..] == t[i + 1..];
    }
  }

  lemma {:induction false} SkipNoMatch(t: string, w: string)
    requires NoMatchIn(t) && (w == [] || Stops(w[0]))
    ensures InsertModulesPrefix(t + w) == t + InsertModulesPrefix(w)
    decreases |t|
  {
    if t == [] {
      assert t + w == w;
    } else {
      var s := t + w;
      assert t[0..] == t;
      assert s[..|t|] == t[..|t|];
      if w != [] {
        assert s[|t|] == w[0];
      }
      Agree(t, s, |t|);
      assert s[1..] == t[1..] + w;
      StepNoMatch(s);
      NoMatchTail(t);
      SkipNoMatch(t[1..], w);
      Regroup3(InsertModulesPrefix(s), [t[0]], InsertModulesPrefix(t[1..] + w), t[1..], InsertModulesPrefix(w));
      assert [t[0]] + t[1..] == t;
    }
  }

  /** Two texts that agree up to a non-space position (or their end) have the same whitespace run after `from`. */
  lemma WsEndAgree(x: string, y: string, n: nat)
    requires 4 <= n <= |x| && n <= |y| && x[..n] == y[..n]
    requires (n == |x| || !IsSpace(x[n])) && (n == |y| || !IsSpace(y[n]))
    ensures WsEnd(x, 4) == WsEnd(y, 4) <= n
  {
    var ex, ey := WsEnd(x, 4), WsEnd(y, 4);
    if n < |x| {
      assert !IsSpace(x[n]);
    }
    if n < |y| {
      assert !IsSpace(y[n]);
    }
    if ex < n {
      assert x[ex] == x[..n][ex] == y[ex];
    }
    if ey < n {
      assert y[ey] == y[..n][ey] == x[ey];
    }
  }

  /** Whether a match starts at the head depends only on the text up to a stopping character. */
  lemma Agree(x: string, y: string, n: nat)
    requires 1 <= n <= |x| && n <= |y| && x[..n] == y[..n]
    requires (n == |x| || Stops(x[n])) && (n == |y| || Stops(y[n]))
    ensures BareImportEnd(x) == BareImportEnd(y)
  {
    if n < 4 {
      if |x| >= 4 {
        assert x[..4][n] == x[n];
      }
      if |y| >= 4 {
        assert y[..4][n] == y[n];
      }
    } else {
      assert x[..4] == x[..n][..4] == y[..n][..4] == y[..4];
      if StartsWith(x, "from") {
        WsEndAgree(x, y, n);
        var e := WsEnd(x, 4);
        if e < n {
          assert x[e] == x[..n][e] == y[e];
          if e + 1 < n {
            assert x[e + 1] == x[..n][e + 1] == y[e + 1];
          }
        }
      }
    }
  }

  /**
   * The rewrite distributes over a concatenation whose right part starts
   * with a stopping character (or is empty): no match straddles the seam.
   */
  lemma {:induction false} InsertConcat(x: string, y: string)
    requires y == [] || Stops(y[0])
    ensures InsertModulesPrefix(x + y) == InsertModulesPrefix(x) + InsertModulesPrefix(y)
    decreases |x|
  {
    if x == [] {
      assert x + y == y;
    } else {
      var s := x + y;
      assert s[..|x|] == x;
      Agree(x, s, |x|);
      match BareImportEnd(x)
      case Some(e) =>
        InsertConcat(x[e..], y);
        ConcatAtMatch(x, y, e);
      case None =>
        InsertConcat(x[1..], y);
        ConcatAtNoMatch(x, y);
    }
  }

  lemma ConcatAtMatch(x: string, y: string, e: nat)
    requires BareImportEnd(x) == Some(e) && BareImportEnd(x + y) == Some(e)
    requires InsertModulesPrefix(x[e..] + y) == InsertModulesPrefix(x[e..]) + InsertModulesPrefix(y)
    ensures InsertModulesPrefix(x + y) == InsertModulesPrefix(x) + InsertModulesPrefix(y)
  {
    MatchStepConcat(x, y, e);
    StepMatch(x, e);
    Regroup3(InsertModulesPrefix(x + y), x[..e] + Resolver.ModulesPrefix, InsertModulesPrefix(x[e..] + y),
      InsertModulesPrefix(x[e..]), InsertModulesPrefix(y));
  }

  /** `l == h + (m + r)` regrouped: the algebra of the two steps above, on plain strings. */
  lemma Regroup3(l: string, h: string, hr: string, m: string, r: string)
    requires l == h + hr && hr == m + r
    ensures l == (h + m) + r
  {
  }

  /** A match at the head of `x + y` that ends inside `x`. */
  lemma MatchStepConcat(x: string, y: string, e: nat)
    requires e <= |x| && BareImportEnd(x + y) == Some(e)
    ensures InsertModulesPrefix(x + y) == x[..e] + Resolver.ModulesPrefix + InsertModulesPrefix(x[e..] + y)
  {
    var s := x + y;
    assert s[..e] == x[..e] && s[e..] == x[e..] + y;
    StepMatch(s, e);
  }

  lemma ConcatAtNoMatch(x: string, y: string)
    requires x != [] && BareImportEnd(x) == None && BareImportEnd(x + y) == None
    requires InsertModulesPrefix(x[1..] + y) == InsertModulesPrefix(x[1..]) + InsertModulesPrefix(y)
    ensures InsertModulesPrefix(x + y) == InsertModulesPrefix(x) + InsertModulesPrefix(y)
  {
    NoMatchStepConcat(x, y);
    StepNoMatch(x);
    Regroup3(InsertModulesPrefix(x + y), [x[0]], InsertModulesPrefix(x[1..] + y),
      InsertModulesPrefix(x[1..]), InsertModulesPrefix(y));
  }

  /** No match at the head of `x + y`, for a non-empty `x`. */
  lemma NoMatchStepConcat(x: string, y: string)
    requires x != [] && BareImportEnd(x + y) == None
    ensures InsertModulesPrefix(x + y) == [x[0]] + InsertModulesPrefix(x[1..] + y)
  {
    var s := x + y;
    assert s[0] == x[0] && s[1..] == x[1..] + y;
    StepNoMatch(s);
  }

  /** After an inserted prefix the lookahead sees `/`, so the match does not recur. */
  lemma InsertedBlocksMatch(s: string, e: nat, rest: string)
    requires BareImportEnd(s) == Some(e)
    ensures BareImportEnd(s[..e] + (Resolver.ModulesPrefix + rest)) == None
  {
    var t := s[..e] + (Resolver.ModulesPrefix + rest);
    assert t[..4] == s[..4];
    assert t[..e - 1] == s[..e - 1];
    assert t[e - 1] == s[e - 1];
    WsEndAgree(s, t, e - 1);
    assert t[e] == '/';
  }

  /** The matched text `from`, whitespace and a quote holds no `f` after its first character. */
  lemma MatchTailHasNoF(s: string, e: nat)
    requires BareImportEnd(s) == Some(e)
    ensures 'f' !in s[1..e]
  {
    forall i | 1 <= i < e
      ensures s[i] != 'f'
    {
      if i < 4 {
        assert s[..4][i] == s[i];
      }
    }
    assert forall j :: 0 <= j < |s[1..e]| ==> s[1..e][j] == s[j + 1];
  }

  /** Texts that agree on an `f` and an `f`-free run, each going on with an `f` or ending. */
  lemma AgreeAfterF(w: string, z1: string, z2: string)
    requires 'f' !in w && (z1 == [] || z1[0] == 'f') && (z2 == [] || z2[0] == 'f')
    ensures BareImportEnd(['f'] + w + z1) == BareImportEnd(['f'] + w + z2)
  {
    var x, y, n := ['f'] + w + z1, ['f'] + w + z2, 1 + |w|;
    assert x[..n] == ['f'] + w == y[..n];
    if z1 != [] {
      assert x[n] == z1[0];
    }
    if z2 != [] {
      assert y[n] == z2[0];
    }
    Agree(x, y, n);
  }

  /** Rewriting what follows a leading `f` does not change whether a match starts there. */
  lemma FHeadKept(s: string)
    requires s != [] && s[0] == 'f'
    ensures BareImportEnd([s[0]] + InsertModulesPrefix(s[1..])) == BareImportEnd(s)
  {
    var w, z := SplitAtNext(s[1..], 'f');
    var rz := InsertModulesPrefix(z);
    SkipNoF(w, z);
    if z != [] {
      InsertHead(z);
    }
    ConsOf(s, w, z);
    ConsRegroup([s[0]] + InsertModulesPrefix(s[1..]), s[0], InsertModulesPrefix(s[1..]), w, rz);
    AgreeAfterF(w, z, rz);
  }

  /** A nonempty text is its first character, then the two parts its rest splits into. */
  lemma ConsOf(s: string, w: string, z: string)
    requires s != [] && s[1..] == w + z
    ensures s == [s[0]] + w + z
  {
    assert s == [s[0]] + s[1..];
  }

  lemma ConsRegroup(l: string, c: char, m: string, w: string, r: string)
    requires l == [c] + m && m == w + r
    ensures l == [c] + w + r
  {
  }

  /** A head without a match stays without one once the rest is rewritten. */
  lemma NoMatchKept(s: string)
    requires s != [] && BareImportEnd(s) == None
    ensures BareImportEnd([s[0]] + InsertModulesPrefix(s[1..])) == None
  {
    if s[0] != 'f' {
      NotFrom([s[0]] + InsertModulesPrefix(s[1..]));
    } else {
      FHeadKept(s);
    }
  }

  /** Inserting the prefix twice is the same as inserting it once. */
  lemma {:induction false} InsertIdempotent(s: string)
    ensures InsertModulesPrefix(InsertModulesPrefix(s)) == InsertModulesPrefix(s)
    decreases |s|
  {
    if s != [] {
      match BareImportEnd(s)
      case Some(e) =>
        InsertIdempotent(s[e..]);
        IdempotentAtMatch(s, e);
      case None =>
        InsertIdempotent(s[1..]);
        IdempotentAtNoMatch(s);
    }
  }

  /** The step of `InsertIdempotent` at a match, given the rest is rewritten stably. */
  lemma IdempotentAtMatch(s: string, e: nat)
    requires BareImportEnd(s) == Some(e)
    requires InsertModulesPrefix(InsertModulesPrefix(s[e..])) == InsertModulesPrefix(s[e..])
    ensures InsertModulesPrefix(InsertModulesPrefix(s)) == InsertModulesPrefix(s)
  {
    var x := InsertModulesPrefix(s[e..]);
    var a := s[1..e] + Resolver.ModulesPrefix;
    var t := [s[0]] + (a + x);
    RewrittenMatch(s, e, x);
    InsertedBlocksMatch(s, e, x);
    MatchTailHasNoF(s, e);
    PrefixHasNoF(s[1..e]);
    SkipNoF(a, x);
    NoMatchStepConcat([s[0]], a + x);
    assert [s[0]][1..] == [];
    Regroup3(InsertModulesPrefix(t), [s[0]], InsertModulesPrefix(a + x), a, InsertModulesPrefix(x));
  }

  /** The rewrite at a match, regrouped after the first character. */
  lemma RewrittenMatch(s: string, e: nat, x: string)
    requires BareImportEnd(s) == Some(e) && x == InsertModulesPrefix(s[e..])
    ensures InsertModulesPrefix(s) == s[..e] + (Resolver.ModulesPrefix + x)
    ensures InsertModulesPrefix(s) == [s[0]] + ((s[1..e] + Resolver.ModulesPrefix) + x)
  {
    StepMatch(s, e);
    assert s[..e] == [s[0]] + s[1..e];
    RegroupHead(InsertModulesPrefix(s), s[..e], s[0], s[1..e], Resolver.ModulesPrefix, x);
  }

  /** `h + m + x` with `h == [c] + a`, regrouped two ways, on plain strings. */
  lemma RegroupHead(l: string, h: string, c: char, a: string, m: string, x: string)
    requires l == h + m + x && h == [c] + a
    ensures l == h + (m + x) && l == [c] + ((a + m) + x)
  {
  }

  /** The prefix holds no `f`, so an `f`-free text followed by it holds none either. */
  lemma PrefixHasNoF(a: string)
    requires 'f' !in a
    ensures 'f' !in a + Resolver.ModulesPrefix
  {
    assert 'f' !in Resolver.ModulesPrefix;
  }

  /** The step of `InsertIdempotent` without a match, given the rest is rewritten stably. */
  lemma IdempotentAtNoMatch(s: string)
    requires s != [] && BareImportEnd(s) == None
    requires InsertModulesPrefix(InsertModulesPrefix(s[1..])) == InsertModulesPrefix(s[1..])
    ensures InsertModulesPrefix(InsertModulesPrefix(s)) == InsertModulesPrefix(s)
  {
    var x := InsertModulesPrefix(s[1..]);
    var t := [s[0]] + x;
    StepNoMatch(s);
    NoMatchKept(s);
    NoMatchStepConcat([s[0]], x);
    assert [s[0]][1..] == [];
  }

  lemma WhitespaceHasNoF(ws: string)
    requires AllSpace(ws)
    ensures 'f' !in ws
  {
    assert forall i :: 0 <= i < |ws| ==> ws[i] != 'f';
  }

  /** A bare specifier gets the prefix right after its opening quote. */
  lemma BareSpecifier(ws: string, q: char, spec: string)
    requires ws != [] && AllSpace(ws) && IsQuote(q)
    requires spec == [] || !IsPathStart(spec[0])
    ensures InsertModulesPrefix("from" + (ws + ([q] + spec)))
      == "from" + ws + [q] + Resolver.ModulesPrefix + InsertModulesPrefix(spec)
  {
    var t := ws + ([q] + spec);
    var s := "from" + t;
    var e := 4 + |ws|;
    StartsWithConcat("from", t);
    assert s[4..] == t;
    WsEndOver(s, 4, ws, [q] + spec);
    assert s[e] == q;
    if spec != [] {
      assert s[e + 1] == spec[0];
    }
    BareImportEndSpec(s);
    StepMatch(s, e + 1);
    assert s[..e + 1] == "from" + ws + [q];
    assert s[e + 1..] == spec;
  }

  lemma PathSpecifierNoMatch(ws: string, q: char, spec: string)
    requires AllSpace(ws) && IsQuote(q)
    requires spec != [] && IsPathStart(spec[0])
    ensures BareImportEnd("from" + (ws + ([q] + spec))) == None
  {
    var t := ws + ([q] + spec);
    var s := "from" + t;
    var e := 4 + |ws|;
    StartsWithConcat("from", t);
    assert s[4..] == t;
    WsEndOver(s, 4, ws, [q] + spec);
    assert s[e] == q && s[e + 1] == spec[0];
    BareImportEndSpec(s);
  }

  /** A relative or absolute specifier (starting with `.` or `/`) is left as it is. */
  lemma PathSpecifier(ws: string, q: char, spec: string)
    requires AllSpace(ws) && IsQuote(q)
    requires spec != [] && IsPathStart(spec[0])
    ensures InsertModulesPrefix("from" + (ws + ([q] + spec))) == "from" + ws + [q] + InsertModulesPrefix(spec)
  {
    PathSpecifierNoMatch(ws, q, spec);
    FromWithoutMatch(ws, q, spec);
  }

  /** `from`, whitespace and a quote that start no match pass through. */
  lemma FromWithoutMatch(ws: string, q: char, spec: string)
    requires AllSpace(ws) && IsQuote(q)
    requires BareImportEnd("from" + (ws + ([q] + spec))) == None
    ensures InsertModulesPrefix("from" + (ws + ([q] + spec))) == "from" + ws + [q] + InsertModulesPrefix(spec)
  {
    var s := "from" + (ws + ([q] + spec));
    var head := "rom" + ws + [q];
    WhitespaceHasNoF(ws);
    FromPieces(ws, q, spec);
    StepNoMatch(s);
    SkipNoF(head, spec);
    Regroup3(InsertModulesPrefix(s), ['f'], InsertModulesPrefix(head + spec), head, InsertModulesPrefix(spec));
  }

  lemma FromPieces(ws: string, q: char, spec: string)
    requires 'f' !in ws && IsQuote(q)
    ensures var s := "from" + (ws + ([q] + spec));
      s[0] == 'f' && s[1..] == ("rom" + ws + [q]) + spec
    ensures "from" + ws + [q] == ['f'] + ("rom" + ws + [q]) && 'f' !in "rom" + ws + [q]
  {
  }

  /** Without whitespace between `from` and the quote there is no match. */
  lemma NeedsWhitespace(q: char, spec: string)
    requires IsQuote(q)
    ensures InsertModulesPrefix("from" + ([q] + spec)) == "from" + [q] + InsertModulesPrefix(spec)
  {
    var s := "from" + ([q] + spec);
    assert s[4] == q;
    BareImportEndSpec(s);
    assert AllSpace("");
    assert "from" + ("" + ([q] + spec)) == s && "from" + "" + [q] == "from" + [q];
    FromWithoutMatch("", q, spec);
  }

  /**
   * The imports the component splitter synthesises name the component's own
   * path, which starts with `/`: the rewrite leaves the footer as it is.
   */
  lemma FooterUnchanged(path: string)
    requires path != [] && path[0] == '/' && NoMatchIn(path)
    ensures InsertModulesPrefix(Sfc.Footer(path)) == Sfc.Footer(path)
  {
    RenderImportPieces();
    ExportScriptPieces();
    OtherPieces();
    LinesUnchanged("import { render as __render } from \"", "import { render as __render } ", "?type=template\"\n",
      "import \"", "?type=style\"\n", Sfc.BindRender, Sfc.ExportScript, "export de", "fault __script", path);
  }

  lemma RenderImportPieces()
    ensures "import { render as __render } from \"" == "import { render as __render } " + ("from" + (" " + ['"']))
    ensures 'f' !in "import { render as __render } "
  {
  }

  lemma ExportScriptPieces()
    ensures Sfc.ExportScript == "export de" + "fault __script"
    ensures 'f' !in "export de"
    ensures "fault __script"[1] == 'a' && 'f' !in "fault __script"[1..]
  {
    assert "fault __script"[1..] == "ault __script";
  }

  lemma OtherPieces()
    ensures 'f' !in "?type=template\"\n" && 'f' !in "import \"" && 'f' !in "?type=style\"\n" && 'f' !in Sfc.BindRender
    ensures Stops("?type=template\"\n"[0]) && Stops("?type=style\"\n"[0])
  {
  }

  /**
   * The footer's shape: an import from the component path, a side-effect
   * import of it, and text whose only `f` does not begin `from`.
   */
  lemma LinesUnchanged(pre: string, a: string, t: string, b: string, s: string, c: string,
                       last: string, d: string, e: string, path: string)
    requires pre == a + ("from" + (" " + ['"'])) && last == d + e
    requires 'f' !in a && 'f' !in t && 'f' !in b && 'f' !in s && 'f' !in c && 'f' !in d
    requires t != [] && Stops(t[0]) && s != [] && Stops(s[0])
    requires |e| > 1 && e[0] == 'f' && e[1] != 'r' && 'f' !in e[1..]
    requires path != [] && path[0] == '/' && NoMatchIn(path)
    ensures var text := ((pre + path) + t) + (((b + path) + s) + (c + last));
      InsertModulesPrefix(text) == text
  {
    var u3 := s + (c + last);
    var u7 := path + (t + (b + (path + u3)));
    LastLinesUnchanged(s, c, last, d, e);
    PathLinesUnchanged(path, t, b, u3);
    ImportFromUnchanged(a, u7);
    Regroup(pre, a, t, b, s, c, last, path);
  }

  lemma Regroup(pre: string, a: string, t: string, b: string, s: string, c: string, last: string, path: string)
    requires pre == a + ("from" + (" " + ['"']))
    ensures ((pre + path) + t) + (((b + path) + s) + (c + last))
      == a + ("from" + (" " + (['"'] + (path + (t + (b + (path + (s + (c + last)))))))))
  {
  }

  lemma LastLinesUnchanged(s: string, c: string, last: string, d: string, e: string)
    requires last == d + e && 'f' !in s && 'f' !in c && 'f' !in d
    requires |e| > 1 && e[0] == 'f' && e[1] != 'r' && 'f' !in e[1..]
    ensures InsertModulesPrefix(s + (c + last)) == s + (c + last)
  {
    TailUnchanged(e);
    SkipUnchanged(d, e);
    SkipUnchanged(c, last);
    SkipUnchanged(s, c + last);
  }

  lemma PathLinesUnchanged(path: string, t: string, b: string, u: string)
    requires NoMatchIn(path) && 'f' !in t && 'f' !in b
    requires t != [] && Stops(t[0]) && u != [] && Stops(u[0]) && InsertModulesPrefix(u) == u
    ensures InsertModulesPrefix(path + (t + (b + (path + u)))) == path + (t + (b + (path + u)))
  {
    SkipPathUnchanged(path, u);
    SkipUnchanged(b, path + u);
    SkipUnchanged(t, b + (path + u));
    SkipPathUnchanged(path, t + (b + (path + u)));
  }

  lemma ImportFromUnchanged(a: string, u: string)
    requires 'f' !in a && u != [] && u[0] == '/' && InsertModulesPrefix(u) == u
    ensures InsertModulesPrefix(a + ("from" + (" " + (['"'] + u)))) == a + ("from" + (" " + (['"'] + u)))
  {
    PathImportUnchanged(u);
    SkipUnchanged(a, "from" + (" " + (['"'] + u)));
  }

  /** `from "` followed by an absolute path the rewrite leaves alone is left alone. */
  lemma PathImportUnchanged(u: string)
    requires u != [] && u[0] == '/' && InsertModulesPrefix(u) == u
    ensures InsertModulesPrefix("from" + (" " + (['"'] + u))) == "from" + (" " + (['"'] + u))
  {
    assert AllSpace(" ");
    PathSpecifier(" ", '"', u);
    Assoc4("from", " ", ['"'], u);
  }

  lemma Assoc4(a: string, b: string, c: string, d: string)
    ensures a + b + c + d == a + (b + (c + d))
  {
  }

  /** An `f`-free text followed by a text the rewrite leaves alone is left alone. */
  lemma SkipUnchanged(a: string, b: string)
    requires 'f' !in a && InsertModulesPrefix(b) == b
    ensures InsertModulesPrefix(a + b) == a + b
  {
    SkipNoF(a, b);
  }

  /** The same for a text in which no match begins, when what follows starts with a stopping character. */
  lemma SkipPathUnchanged(a: string, b: string)
    requires NoMatchIn(a) && b != [] && Stops(b[0]) && InsertModulesPrefix(b) == b
    ensures InsertModulesPrefix(a + b) == a + b
  {
    SkipNoMatch(a, b);
  }

  /** A text whose only `f` is its first character, not followed by `r`, holds no match. */
  lemma TailUnchanged(e: string)
    requires |e| > 1 && e[0] == 'f' && e[1] != 'r' && 'f' !in e[1..]
    ensures InsertModulesPrefix(e) == e
  {
    FNotFrom(e);
    StepNoMatch(e);
    NoFUnchanged(e[1..]);
    assert e == [e[0]] + e[1..];
  }

  lemma FNotFrom(e: string)
    requires |e| > 1 && e[1] != 'r'
    ensures BareImportEnd(e) == None
  {
    assert !StartsWith(e, "from") by {
      if |e| >= 4 { assert e[..4][1] == e[1]; }
    }
  }

  /** Text without an `f` is left as it is. */
  lemma NoFUnchanged(t: string)
    requires 'f' !in t
    ensures InsertModulesPrefix(t) == t
  {
    SkipNoF(t, []);
    assert t + [] == t;
    assert InsertModulesPrefix([]) == [];
  }

  /** In the main module only the rewritten script can change; the footer passes through. */
  lemma MainModuleImports(script: string, path: string)
    requires path != [] && path[0] == '/' && NoMatchIn(path)
    ensures InsertModulesPrefix(Sfc.MainCode(script, path))
      == InsertModulesPrefix(Sfc.RewriteDefaultExport(script)) + Sfc.Footer(path)
  {
    assert Sfc.Footer(path)[0] == 'i';
    InsertConcat(Sfc.RewriteDefaultExport(script), Sfc.Footer(path));
    FooterUnchanged(path);
  }

  const EnvToken := "process.env.NODE_ENV"
  const EnvValue := "\"development\""

  /** `.replace(/process\.env\.NODE_ENV/g, '"development"')`, scanning left to right. */
  function ReplaceEnv(s: string): string
    decreases |s|
  {
    if s == [] then []
    else if StartsWith(s, EnvToken) then EnvValue + ReplaceEnv(s[|EnvToken|..])
    else [s[0]] + ReplaceEnv(s[1..])
  }

  /** The whole rewrite of a JavaScript body: the specifier pass, then the environment token. */
  function RewriteImports(s: string): string
  {
    ReplaceEnv(InsertModulesPrefix(s))
  }

  lemma EnvStepOther(s: string)
    requires s != [] && !StartsWith(s, EnvToken)
    ensures ReplaceEnv(s) == [s[0]] + ReplaceEnv(s[1..])
  {
  }

  /** A text without the token is left unchanged. */
  lemma {:induction false} EnvAbsent(s: string)
    requires !Contains(s, EnvToken)
    ensures ReplaceEnv(s) == s
    decreases |s|
  {
    if s != [] {
      EnvStepOther(s);
      EnvAbsent(s[1..]);
    }
  }

  /** The result starts as the text does, or with the literal's opening quote. */
  lemma EnvHead(s: string)
    requires s != []
    ensures ReplaceEnv(s) != [] && (ReplaceEnv(s)[0] == s[0] || ReplaceEnv(s)[0] == '"')
  {
  }

  /** A run without `p` passes through the replacement. */
  lemma {:induction false} EnvSkipNoP(t: string, w: string)
    requires 'p' !in t
    ensures ReplaceEnv(t + w) == t + ReplaceEnv(w)
    decreases |t|
  {
    if t == [] {
      assert t + w == w;
    } else {
      var s := t + w;
      assert s[0] == t[0] && s[1..] == t[1..] + w;
      assert !StartsWith(s, EnvToken) by {
        if |s| >= |EnvToken| { assert s[..|EnvToken|][0] == s[0]; }
      }
      calc {
        ReplaceEnv(s);
        { EnvStepOther(s); }
        [t[0]] + ReplaceEnv(t[1..] + w);
        { EnvSkipNoP(t[1..], w); }
        [t[0]] + (t[1..] + ReplaceEnv(w));
        { assert [t[0]] + t[1..] == t; }
        t + ReplaceEnv(w);
      }
    }
  }

  /** An occurrence after a `p`-free run becomes the development literal; scanning goes on after it. */
  lemma EnvAtToken(t: string, w: string)
    requires 'p' !in t
    ensures ReplaceEnv(t + EnvToken + w) == t + EnvValue + ReplaceEnv(w)
  {
    EnvSkipNoP(t, EnvToken + w);
    StartsWithConcat(EnvToken, w);
    assert (EnvToken + w)[|EnvToken|..] == w;
    assert t + EnvToken + w == t + (EnvToken + w);
  }

  /** The number of occurrences the replacement scan finds. */
  function EnvCount(s: string): nat
    decreases |s|
  {
    if s == [] then 0
    else if StartsWith(s, EnvToken) then 1 + EnvCount(s[|EnvToken|..])
    else EnvCount(s[1..])
  }

  /** Each occurrence found, 20 characters, becomes the 13 of the literal: the rest is kept. */
  lemma {:induction false} EnvLength(s: string)
    ensures |ReplaceEnv(s)| + 7 * EnvCount(s) == |s|
    decreases |s|
  {
    if s == [] {
    } else if StartsWith(s, EnvToken) {
      EnvLength(s[|EnvToken|..]);
    } else {
      EnvLength(s[1..]);
    }
  }

  /** The characters of the token after its first hold neither `p` nor a quote. */
  lemma EnvTokenTail()
    ensures forall i :: 1 <= i < |EnvToken| ==> EnvToken[i] != 'p' && EnvToken[i] != '"'
  {
  }

  /** The literal holds `p` at one place only, and `m` follows it. */
  lemma EnvValueLetters()
    ensures |EnvValue| == 13 && EnvValue[8] == 'm'
    ensures forall i :: 0 <= i < |EnvValue| && i != 7 ==> EnvValue[i] != 'p'
  {
  }

  /** No occurrence starts inside or at an inserted literal. */
  lemma {:induction false} ValueSuffixClean(x: string, k: nat)
    requires k <= |EnvValue| && !Contains(x, EnvToken)
    ensures !Contains((EnvValue + x)[k..], EnvToken)
    decreases |EnvValue| - k
  {
    var v := EnvValue + x;
    if k == |EnvValue| {
      assert v[k..] == x;
    } else {
      ValueSuffixClean(x, k + 1);
      var u := v[k..];
      assert u[1..] == v[k + 1..];
      EnvValueLetters();
      assert u[0] == EnvValue[k];
      if |u| >= |EnvToken| {
        assert u[..|EnvToken|][0] == u[0] && u[..|EnvToken|][1] == u[1];
      }
      if k == 7 {
        assert u[1] == EnvValue[8];
      }
    }
  }

  /** A text starting with `p` but not with the token keeps that property once its rest is replaced. */
  lemma PHeadKept(s: string)
    requires s != [] && s[0] == 'p' && !StartsWith(s, EnvToken)
    ensures !StartsWith([s[0]] + ReplaceEnv(s[1..]), EnvToken)
  {
    var w, z := SplitAtNext(s[1..], 'p');
    EnvSkipNoP(w, z);
    var rz := ReplaceEnv(z);
    ConsOf(s, w, z);
    ConsRegroup([s[0]] + ReplaceEnv(s[1..]), s[0], ReplaceEnv(s[1..]), w, rz);
    if z != [] {
      EnvHead(z);
    }
    EnvTokenTail();
    PHeadAgree(w, z, rz, EnvToken);
  }

  /**
   * A token whose only `p` and no quote is its first character cannot start
   * `p`, a `p`-free run, then a text opening with `p` or a quote, unless the
   * same holds with any other such text.
   */
  lemma PHeadAgree(w: string, z: string, rz: string, tok: string)
    requires 'p' !in w && tok != [] && tok[0] == 'p'
    requires forall i :: 1 <= i < |tok| ==> tok[i] != 'p' && tok[i] != '"'
    requires rz == [] || rz[0] == 'p' || rz[0] == '"'
    requires !StartsWith(['p'] + w + z, tok)
    ensures !StartsWith(['p'] + w + rz, tok)
  {
    var x, y, n := ['p'] + w + z, ['p'] + w + rz, |tok|;
    if n <= |y| {
      if |w| >= n - 1 {
        assert x[..n] == y[..n];
      } else {
        assert y[1 + |w|] == rz[0];
        assert y[..n][1 + |w|] == y[1 + |w|];
      }
    }
  }

  /** After the replacement no occurrence of the token is left. */
  lemma {:induction false} NoEnvLeft(s: string)
    ensures !Contains(ReplaceEnv(s), EnvToken)
    decreases |s|
  {
    if s == [] {
    } else if StartsWith(s, EnvToken) {
      NoEnvLeft(s[|EnvToken|..]);
      ValueSuffixClean(ReplaceEnv(s[|EnvToken|..]), 0);
      assert (EnvValue + ReplaceEnv(s[|EnvToken|..]))[0..] == EnvValue + ReplaceEnv(s[|EnvToken|..]);
    } else {
      var x := ReplaceEnv(s[1..]);
      NoEnvLeft(s[1..]);
      EnvStepOther(s);
      var u := [s[0]] + x;
      assert u[1..] == x;
      if s[0] == 'p' {
        PHeadKept(s);
      } else if |u| >= |EnvToken| {
        assert u[..|EnvToken|][0] == u[0];
      }
    }
  }
}
