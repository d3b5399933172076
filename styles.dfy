/**
 * The CSS wrapper: a stylesheet becomes a JavaScript module that injects it
 * through a `<style>` element and exports its text.
 */
module Styles {
  import opened Wrappers
  import opened Strings

  /** `content.replace(/\n/g, '')`: every line feed removed, nothing else touched. */
  function StripNewlines(s: string): (r: string)
    ensures '\n' !in r
    ensures |r| <= |s|
  {
    if s == [] then []
    else (if s[0] == '\n' then [] else [s[0]]) + StripNewlines(s[1..])
  }

  const CssPrefix := "const css = \""
  /** The closing quote and the lines that inject the style element into the document head. */
  const InjectLines := "\"\nconst styleEl = document.createElement('style')\nstyleEl.setAttribute('type', 'text/css')\nstyleEl.innerHTML = css\ndocument.head.appendChild(styleEl)\n"
  const CssExport := "export default css"
  const CssSuffix := InjectLines + CssExport

  /** The module served for a stylesheet. */
  function WrapCss(css: string): string
  {
    CssPrefix + StripNewlines(css) + CssSuffix
  }

  /** The stylesheet text a wrapped module carries, if it has the wrapper's shape. */
  function EmbeddedCss(text: string): (r: Option<string>)
    ensures r.Some? ==> |r.value| + |CssPrefix| + |CssSuffix| == |text|
  {
    if |text| >= |CssPrefix| + |CssSuffix| && StartsWith(text, CssPrefix) && EndsWith(text, CssSuffix)
    then Some(text[|CssPrefix|..|text| - |CssSuffix|])
    else None
  }

  /** A text without line feeds is kept as it is. */
  lemma {:induction false} StripWithoutNewlines(s: string)
    requires '\n' !in s
    ensures StripNewlines(s) == s
    decreases |s|
  {
    if s != [] {
      assert '\n' !in s[1..];
      StripWithoutNewlines(s[1..]);
      assert [s[0]] + s[1..] == s;
    }
  }

  /** Stripping works piecewise, so the order of everything kept is the original order. */
  lemma {:induction false} StripConcat(a: string, b: string)
    ensures StripNewlines(a + b) == StripNewlines(a) + StripNewlines(b)
    decreases |a|
  {
    if a == [] {
      assert a + b == b;
    } else {
      assert (a + b)[0] == a[0] && (a + b)[1..] == a[1..] + b;
      StripConcat(a[1..], b);
    }
  }

  /** Stripping twice is stripping once. */
  lemma StripIdempotent(s: string)
    ensures StripNewlines(StripNewlines(s)) == StripNewlines(s)
  {
    StripWithoutNewlines(StripNewlines(s));
  }

  /** Exactly the line feeds go: the length drops by their number. */
  lemma {:induction false} StripLength(s: string)
    ensures |StripNewlines(s)| == |s| - multiset(s)['\n']
    decreases |s|
  {
    if s != [] {
      StripLength(s[1..]);
      assert s == [s[0]] + s[1..];
      assert multiset(s) == multiset([s[0]]) + multiset(s[1..]);
    }
  }

  /** The wrapped module carries the stylesheet with its line feeds removed, and nothing else. */
  lemma WrapRoundTrip(css: string)
    ensures EmbeddedCss(WrapCss(css)) == Some(StripNewlines(css))
    ensures '\n' !in EmbeddedCss(WrapCss(css)).value
  {
    Framed(CssPrefix, StripNewlines(css), CssSuffix);
  }

  /** On stylesheets without line feeds the wrapper loses nothing: different sheets give different modules. */
  lemma WrapInjective(a: string, b: string)
    requires '\n' !in a && '\n' !in b && WrapCss(a) == WrapCss(b)
    ensures a == b
  {
    WrapRoundTrip(a);
    WrapRoundTrip(b);
    StripWithoutNewlines(a);
    StripWithoutNewlines(b);
  }

  /** The module's default export is the stylesheet text. */
  lemma WrapExportsCss(css: string)
    ensures StartsWith(WrapCss(css), CssPrefix)
    ensures EndsWith(WrapCss(css), CssExport)
  {
    Framed(CssPrefix, StripNewlines(css), CssSuffix);
    EndsWithLast(CssPrefix + StripNewlines(css), InjectLines, CssExport);
  }
}
