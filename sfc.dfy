/**
 * The single-file-component splitter: one `.vue` file is served as three
 * modules chosen by `?type=`: the script (main module), the compiled
 * template, and the concatenated styles.
 */
module Sfc {
  import opened Wrappers
  import opened Strings
  import opened Static

  /** What the component parser extracts: optional script and template blocks, and the style blocks in order. */
  datatype Descriptor = Descriptor(script: Option<string>, template: Option<string>, styles: seq<string>)

  /** Which sub-resource a request asks for through `?type=`. */
  datatype Part = ScriptPart | TemplatePart | StylePart | UnknownPart

  /** `!ctx.query.type` holds for a missing and for an empty discriminator alike. */
  function PartOf(query: Option<string>): (p: Part)
    ensures p == ScriptPart <==> (query.None? || query.value == "")
    ensures p == TemplatePart <==> query == Some("template")
    ensures p == StylePart <==> query == Some("style")
  {
    match query
    case None => ScriptPart
    case Some(q) =>
      if q == "" then ScriptPart
      else if q == "template" then TemplatePart
      else if q == "style" then StylePart
      else UnknownPart
  }

  const ScriptBinding := "const __script = "

  /** The end of a match of `export\s+default\s+` at the start of `s`, if there is one. */
  function DefaultExportEnd(s: string): (r: Option<nat>)
    ensures r.Some? ==> 15 <= r.value <= |s|
    ensures r.Some? ==> StartsWith(s, "export")
  {
    if !StartsWith(s, "export") then None
    else
      var e1 := WsEnd(s, 6);
      if e1 == 6 || !StartsWith(s[e1..], "default") then None
      else
        var e2 := WsEnd(s, e1 + 7);
        if e2 == e1 + 7 then None else Some(e2)
  }

  /** `code.replace(/export\s+default\s+/g, 'const __script = ')`, scanning left to right. */
  function RewriteDefaultExport(s: string): string
    decreases |s|
  {
    if s == [] then []
    else match DefaultExportEnd(s)
      case Some(e) => ScriptBinding + RewriteDefaultExport(s[e..])
      case None => [s[0]] + RewriteDefaultExport(s[1..])
  }

  /** The first appended line: the render function from the template request. */
  function RenderLine(path: string): string
  {
    "import { render as __render } from \"" + path + "?type=template\"\n"
  }

  /** The second appended line: the style request, imported for its effect. */
  function StyleLine(path: string): string
  {
    "import \"" + path + "?type=style\"\n"
  }

  const BindRender := "__script.render = __render\n"
  const ExportScript := "export default __script"

  /** The four lines appended to the script, without a newline before the first. */
  function Footer(path: string): string
  {
    RenderLine(path) + (StyleLine(path) + (BindRender + ExportScript))
  }

  /** The main module: the rewritten script followed by the footer. */
  function MainCode(script: string, path: string): string
  {
    RewriteDefaultExport(script) + Footer(path)
  }

  /** All style blocks' contents, joined with the empty separator. */
  function JoinStyles(styles: seq<string>): string
  {
    if styles == [] then "" else styles[0] + JoinStyles(styles[1..])
  }

  datatype Failure = MissingScript | MissingTemplate

  /** The body a stage produces: code of a content type, or `undefined`. */
  datatype Output = Code(text: string, ctype: ContentType) | NoCode

  /**
   * The splitter's result for one component and one requested part; the
   * template compiler takes the source text and the component's path as id.
   */
  function Split(d: Descriptor, part: Part, path: string, compile: (string, string) -> string)
    : (r: Result<Output, Failure>)
    ensures r.Err? <==> (part == ScriptPart && d.script.None?) || (part == TemplatePart && d.template.None?)
    ensures r.Ok? && r.value.Code? ==> (r.value.ctype == Css <==> part == StylePart)
    ensures r.Ok? && r.value.Code? ==> r.value.ctype == Css || r.value.ctype == Js
    ensures r == Ok(NoCode) <==> part == UnknownPart
  {
    match part
    case ScriptPart =>
      if d.script.None? then Err(MissingScript) else Ok(Code(MainCode(d.script.value, path), Js))
    case TemplatePart =>
      if d.template.None? then Err(MissingTemplate) else Ok(Code(compile(d.template.value, path), Js))
    case StylePart => Ok(Code(JoinStyles(d.styles), Css))
    case UnknownPart => Ok(NoCode)
  }

  /** A script without the word `export` passes through the rewrite unchanged. */
  lemma {:induction false} RewriteWithoutExport(s: string)
    requires !Contains(s, "export")
    ensures RewriteDefaultExport(s) == s
    decreases |s|
  {
    if s != [] {
      assert DefaultExportEnd(s) == None;
      RewriteWithoutExport(s[1..]);
    }
  }

  /** The match of `export\s+default\s+` at the head of a text built from its parts. */
  lemma DefaultExportMatch(ws1: string, ws2: string, rest: string)
    requires ws1 != [] && ws2 != [] && AllSpace(ws1) && AllSpace(ws2)
    requires rest == [] || !IsSpace(rest[0])
    ensures DefaultExportEnd("export" + (ws1 + ("default" + (ws2 + rest)))) == Some(13 + |ws1| + |ws2|)
  {
    var t3 := ws2 + rest;
    var t2 := "default" + t3;
    var t1 := ws1 + t2;
    var s := "export" + t1;
    StartsWithConcat("export", t1);
    assert s[6..] == t1;
    assert t2[0] == 'd';
    WsEndOver(s, 6, ws1, t2);
    var e1 := 6 + |ws1|;
    assert s[e1..] == t2;
    StartsWithConcat("default", t3);
    assert s[e1 + 7..] == t3;
    WsEndOver(s, e1 + 7, ws2, rest);
  }

  /**
   * `export` and `default`, each followed by whitespace, become the internal
   * binding; the expression after them is scanned on.
   */
  lemma RewriteExportDefault(ws1: string, ws2: string, rest: string)
    requires ws1 != [] && ws2 != [] && AllSpace(ws1) && AllSpace(ws2)
    requires rest == [] || !IsSpace(rest[0])
    ensures RewriteDefaultExport("export" + (ws1 + ("default" + (ws2 + rest)))) == ScriptBinding + RewriteDefaultExport(rest)
  {
    DefaultExportMatch(ws1, ws2, rest);
    AfterExportDefault(ws1, ws2, rest);
    RewriteAtMatchTo("export" + (ws1 + ("default" + (ws2 + rest))), 13 + |ws1| + |ws2|, rest);
  }

  lemma RewriteAtMatchTo(s: string, e: nat, rest: string)
    requires DefaultExportEnd(s) == Some(e) && s[e..] == rest
    ensures RewriteDefaultExport(s) == ScriptBinding + RewriteDefaultExport(rest)
  {
    RewriteAtMatch(s, e);
  }

  /** What follows `export`, `default` and their whitespace is the expression. */
  lemma AfterExportDefault(ws1: string, ws2: string, rest: string)
    ensures ("export" + (ws1 + ("default" + (ws2 + rest))))[13 + |ws1| + |ws2|..] == rest
  {
    var s := "export" + (ws1 + ("default" + (ws2 + rest)));
    assert s[6..] == ws1 + ("default" + (ws2 + rest));
    assert s[6 + |ws1|..] == "default" + (ws2 + rest);
    assert s[13 + |ws1|..] == ws2 + rest;
  }

  lemma RewriteAtMatch(s: string, e: nat)
    requires DefaultExportEnd(s) == Some(e)
    ensures RewriteDefaultExport(s) == ScriptBinding + RewriteDefaultExport(s[e..])
  {
  }

  /**
   * A script `export default <expr>` whose expression has no further `export`
   * becomes `const __script = <expr>`.
   */
  lemma MainScriptBinding(expr: string)
    requires !Contains(expr, "export") && (expr == [] || !IsSpace(expr[0]))
    ensures RewriteDefaultExport("export default " + expr) == ScriptBinding + expr
  {
    ExportDefaultSpelled(expr);
    RewriteExportDefault(" ", " ", expr);
    RewriteWithoutExport(expr);
  }

  /**
   * Code without the word `export`, followed by text starting with `e` (or
   * nothing), is kept as it is: no match can begin in it or straddle the seam.
   */
  lemma {:induction false} RewriteSkip(t: string, s: string)
    requires !Contains(t, "export") && (s == [] || s[0] == 'e')
    ensures RewriteDefaultExport(t + s) == t + RewriteDefaultExport(s)
    decreases |t|
  {
    if t == [] {
      assert t + s == s;
    } else {
      var u := t + s;
      assert !StartsWith(u, "export") by {
        if |t| >= 6 {
          assert u[..6] == t[..6];
        } else if |u| >= 6 {
          assert u[|t|] == s[0];
          assert u[..6][|t|] == u[|t|];
        }
      }
      assert u[1..] == t[1..] + s;
      assert !Contains(t[1..], "export");
      RewriteSkip(t[1..], s);
      HeadThenRest(t, RewriteDefaultExport(s));
    }
  }

  /**
   * The usual script: code without `export` (imports, helpers), then
   * `export default <expr>`. Only the default export is rebound.
   */
  lemma ScriptAfterCode(code: string, expr: string)
    requires !Contains(code, "export") && !Contains(expr, "export") && (expr == [] || !IsSpace(expr[0]))
    ensures RewriteDefaultExport(code + "export default " + expr) == code + ScriptBinding + expr
  {
    assert code + "export default " + expr == code + ("export default " + expr);
    RewriteSkip(code, "export default " + expr);
    MainScriptBinding(expr);
  }

  /** No match of `export\s+default\s+` begins anywhere in `t`. */
  predicate NoExportMatchIn(t: string)
  {
    forall i {:trigger DefaultExportEnd(t[i..])} :: 0 <= i < |t| ==> DefaultExportEnd(t[i..]) == None
  }

  /** Text without the word `export` holds no match. */
  lemma ExportFreeNoMatch(t: string)
    requires !Contains(t, "export")
    ensures NoExportMatchIn(t)
  {
    forall i | 0 <= i < |t|
      ensures DefaultExportEnd(t[i..]) == None
    {
      if StartsWith(t[i..], "export") {
        ContainsAt(t, "export", i);
      }
    }
  }

  /** A whitespace run that starts before the seam ends before it when a non-space follows. */
  lemma {:induction false} WsEndBeforeSeam(t: string, s: string, k: nat)
    requires k <= |t| && (s == [] || !IsSpace(s[0]))
    ensures WsEnd(t + s, k) == WsEnd(t, k)
    decreases |t| - k
  {
    var u := t + s;
    if k < |t| {
      assert u[k] == t[k];
      if IsSpace(t[k]) {
        WsEndBeforeSeam(t, s, k + 1);
      }
    } else if s != [] {
      assert u[k] == s[0];
    }
  }

  /**
   * Text that does not end in `d`, followed by text starting with `e` (or
   * nothing): a match at the head is found in the whole exactly when it is
   * found in the first part.
   */
  lemma ExportSeam(t: string, s: string)
    requires t != [] && t[|t| - 1] != 'd' && (s == [] || s[0] == 'e')
    ensures DefaultExportEnd(t + s) == DefaultExportEnd(t)
  {
    var u := t + s;
    if s == [] {
      assert u == t;
    } else {
      assert u[|t|] == 'e';
      if StartsWith(u, "export") {
        if |t| < 6 {
          assert false;
        }
        assert u[..6] == t[..6];
        WsEndBeforeSeam(t, s, 6);
        var e1 := WsEnd(t, 6);
        if e1 != 6 {
          assert u[..|t|] == t;
          if e1 + 7 <= |t| {
            assert u[e1..][..7] == t[e1..][..7];
            WsEndBeforeSeam(t, s, e1 + 7);
          } else {
            DefaultNotAcrossSeam(u, t, e1);
          }
        }
      } else if |t| >= 6 {
        assert u[..6] == t[..6];
      }
    }
  }

  /** `default` cannot straddle the seam: its only `e` follows its `d`, which would end the first part. */
  lemma DefaultNotAcrossSeam(u: string, t: string, e1: nat)
    requires |t| < |u| && u[..|t|] == t && u[|t|] == 'e'
    requires t != [] && t[|t| - 1] != 'd' && e1 <= |t| < e1 + 7
    ensures !StartsWith(u[e1..], "default")
  {
    var j := |t| - e1;
    assert u[e1..][j] == 'e';
    if j == 0 {
      assert u[e1..][0] == 'e';
    } else {
      assert u[e1..][0] == t[e1];
      if j == 1 {
        assert t[e1] == t[|t| - 1];
      } else {
        assert "default"[j] != 'e';
      }
    }
  }

  /** Where no match begins, the rewrite keeps the first character. */
  lemma RewriteKeepsFirst(u: string)
    requires u != [] && DefaultExportEnd(u) == None
    ensures RewriteDefaultExport(u) == [u[0]] + RewriteDefaultExport(u[1..])
  {
  }

  /** Where no match begins in code followed by more text, the code's first character is kept. */
  lemma KeepFirstOfCode(t: string, s: string)
    requires t != [] && DefaultExportEnd(t + s) == None
    ensures RewriteDefaultExport(t + s) == [t[0]] + RewriteDefaultExport(t[1..] + s)
  {
    RewriteKeepsFirst(t + s);
    assert (t + s)[1..] == t[1..] + s;
  }

  /** Putting the first character back in front of the rest of a text, then more text, gives the text, then that more. */
  lemma HeadThenRest(t: string, w: string)
    requires t != []
    ensures [t[0]] + (t[1..] + w) == t + w
  {
    assert [t[0]] + t[1..] == t;
  }

  /** One step of the skip: the first character of match-free code is kept, and the rest is again match-free code. */
  lemma SkipFirstOfCode(t: string, s: string)
    requires t != [] && NoExportMatchIn(t) && t[|t| - 1] != 'd' && (s == [] || s[0] == 'e')
    ensures RewriteDefaultExport(t + s) == [t[0]] + RewriteDefaultExport(t[1..] + s)
    ensures NoExportMatchIn(t[1..]) && (t[1..] == [] || t[1..][|t[1..]| - 1] != 'd')
  {
    NoExportMatchTail(t);
    ExportSeam(t, s);
    KeepFirstOfCode(t, s);
    if |t| > 1 {
      assert t[1..][|t[1..]| - 1] == t[|t| - 1];
    }
  }

  /** A match-free text stays match-free without its first character. */
  lemma NoExportMatchTail(t: string)
    requires t != [] && NoExportMatchIn(t)
    ensures NoExportMatchIn(t[1..]) && DefaultExportEnd(t) == None
  {
    assert t[0..] == t;
    forall i | 0 <= i < |t[1..]|
      ensures DefaultExportEnd(t[1..][i..]) == None
    {
      assert t[1..][i..] == t[i + 1..];
    }
  }

  /**
   * Code in which no match begins, not ending in `d`, is kept before text
   * starting with `e`: earlier named exports leave the rewrite of a later
   * `export default` as it is.
   */
  lemma {:induction false} RewriteSkipNoMatch(t: string, s: string)
    requires NoExportMatchIn(t) && (t == [] || t[|t| - 1] != 'd') && (s == [] || s[0] == 'e')
    ensures RewriteDefaultExport(t + s) == t + RewriteDefaultExport(s)
    decreases |t|
  {
    if t == [] {
      assert t + s == s;
    } else {
      SkipFirstOfCode(t, s);
      RewriteSkipNoMatch(t[1..], s);
      HeadThenRest(t, RewriteDefaultExport(s));
    }
  }

  /** A script whose default export follows code with other exports: only the default export is rebound. */
  lemma ScriptAfterExports(code: string, expr: string)
    requires NoExportMatchIn(code) && (code == [] || code[|code| - 1] != 'd')
    requires !Contains(expr, "export") && (expr == [] || !IsSpace(expr[0]))
    ensures RewriteDefaultExport(code + "export default " + expr) == code + ScriptBinding + expr
  {
    assert code + "export default " + expr == code + ("export default " + expr);
    RewriteSkipNoMatch(code, "export default " + expr);
    MainScriptBinding(expr);
  }

  /** A named export is not `export default`: `export const …` starts no match. */
  lemma NamedExportNoMatch(rest: string)
    requires rest == [] || (rest[0] != 'd' && !IsSpace(rest[0]))
    ensures DefaultExportEnd("export " + rest) == None
  {
    var u := "export " + rest;
    WsEndOver(u, 6, " ", rest);
    assert u[7..] == rest;
  }

  lemma ExportDefaultSpelled(expr: string)
    ensures "export default " + expr == "export" + (" " + ("default" + (" " + expr)))
  {
  }

  /** The main module ends by exporting the internal binding as the default. */
  lemma MainCodeExportsBinding(script: string, path: string)
    ensures EndsWith(MainCode(script, path), ExportScript)
    ensures StartsWith(MainCode(script, path), RewriteDefaultExport(script))
  {
    EndsWithConcat(BindRender, ExportScript);
    EndsWithExtend(StyleLine(path), BindRender + ExportScript, ExportScript);
    EndsWithExtend(RenderLine(path), StyleLine(path) + (BindRender + ExportScript), ExportScript);
    EndsWithExtend(RewriteDefaultExport(script), Footer(path), ExportScript);
    StartsWithConcat(RewriteDefaultExport(script), Footer(path));
  }

  /** Joining keeps every block, in order: the join of two runs is the two joins. */
  lemma {:induction false} JoinStylesConcat(a: seq<string>, b: seq<string>)
    ensures JoinStyles(a + b) == JoinStyles(a) + JoinStyles(b)
    decreases |a|
  {
    if a == [] {
      assert a + b == b;
    } else {
      assert (a + b)[0] == a[0] && (a + b)[1..] == a[1..] + b;
      JoinStylesConcat(a[1..], b);
    }
  }

  /** A single style block is served as it is. */
  lemma JoinOneStyle(css: string)
    ensures JoinStyles([css]) == css
  {
    assert [css][1..] == [];
  }

  /** The joined length is the sum of the block lengths: nothing is added between blocks. */
  lemma {:induction false} JoinStylesLength(styles: seq<string>)
    ensures |JoinStyles(styles)| == TotalLength(styles)
    decreases |styles|
  {
    if styles != [] {
      JoinStylesLength(styles[1..]);
    }
  }

  function TotalLength(styles: seq<string>): nat
  {
    if styles == [] then 0 else |styles[0]| + TotalLength(styles[1..])
  }
}
