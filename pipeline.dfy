/**
 * The request pipeline: six stages applied in order to one per-request
 * context. Each stage is a function on a `State` value; the `RequestCtx`
 * class holds the same fields, updates them in place, and each of its
 * methods is proved to do what the stage function says.
 */
module Pipeline {
  import opened Wrappers
  import opened Strings
  import opened Streams
  import opened Static
  import Base64
  import Resolver
  import Sfc
  import Imports
  import Styles

  /** `ctx.body`: unset (or `undefined`), a file stream given as the chunks it delivers, or a string. */
  datatype Body = Empty | Stream(chunks: seq<seq<byte>>) | Text(text: string)

  datatype Error =
    | ResolveFailed(resolution: Resolver.Failure)
    | ComponentFailed(component: Sfc.Failure)
    | NotAStream // the body handed to `streamToString` is not a stream

  /**
   * The context fields the stages read and write; `ctype` is `None` when no
   * Content-Type header is set.
   */
  datatype State = State(path: string, query: Option<string>, ctype: Option<ContentType>, body: Body, status: nat)

  /**
   * Everything the stages take from outside the request: the lock-file
   * index (`None` without a lock file), the `module` field of each readable
   * package.json, the files under the search roots, the component parser
   * and template compiler, and the UTF-8 decoder.
   */
  datatype Env = Env(
    index: Option<seq<string>>,
    manifests: map<string, Option<string>>,
    files: FileSystem,
    parse: string -> Sfc.Descriptor,
    compile: (string, string) -> string,
    decode: seq<byte> -> string)

  /** How a stage ends: it calls `next`, it returns without calling it, or it throws. */
  datatype Outcome = Next(st: State) | Done(st: State) | Failed(error: Error, st: State)

  /** What Koa holds before the first stage runs: no type, no body, status 404. */
  function Request(path: string, query: Option<string>): State
  {
    State(path, query, None, Empty, 404)
  }

  /** Stage 1: `/@modules/` paths are resolved to a file under `node_modules`. */
  function ResolveStage(st: State, env: Env): (o: Outcome)
    ensures o.Next? || o.Failed?
    ensures o.st == st.(path := o.st.path)
    ensures !StartsWith(st.path, Resolver.ModulesPrefix) ==> o == Next(st)
    ensures o.Failed? ==> o.st == st
  {
    match Resolver.Resolve(st.path, env.index, env.manifests)
    case Err(f) => Failed(ResolveFailed(f), st)
    case Ok(p) => Next(st.(path := p))
  }

  /** Stage 2: the first root holding the file serves it as a stream; without one the chain ends with 404. */
  function ServeStage(st: State, env: Env): (o: Outcome)
    ensures o.Next? || o.Done?
    ensures o.Done? <==> FirstRoot(env.files, Roots, UrlPath(st.path)).None?
    ensures o.Done? ==> o.st == st.(status := 404)
    ensures o.Next? ==> o.st.body.Stream? && o.st.status == 200 && o.st.path == st.path && o.st.query == st.query
  {
    var url := UrlPath(st.path);
    match FirstRoot(env.files, Roots, url)
    case None => Done(st.(status := 404))
    case Some(i) =>
      Next(st.(ctype := Some(StreamType(Extname(url))), body := Stream(env.files[(Roots[i], url)]), status := 200))
  }

  /** Stage 3: a `.vue` path is answered with the part of the component the query names. */
  function SplitStage(st: State, env: Env): (o: Outcome)
    ensures !EndsWith(st.path, ".vue") ==> o == Next(st)
    ensures o.st.path == st.path && o.st.query == st.query
  {
    if !EndsWith(st.path, ".vue") then Next(st)
    else match st.body
      case Stream(chunks) =>
        var d := env.parse(env.decode(Flatten(chunks)));
        (match Sfc.Split(d, Sfc.PartOf(st.query), st.path, env.compile)
         case Err(f) => Failed(ComponentFailed(f), st)
         case Ok(Code(text, t)) => Next(st.(ctype := Some(t), body := Text(text)))
         case Ok(NoCode) => Next(st.(ctype := None, body := Empty, status := 204)))
      case _ => Failed(NotAStream, st)
  }

  /** The string a stage works on: a string body as it is, a stream drained and decoded. */
  function Content(b: Body, decode: seq<byte> -> string): Result<string, Error>
  {
    match b
    case Text(t) => Ok(t)
    case Stream(chunks) => Ok(decode(Flatten(chunks)))
    case Empty => Err(NotAStream)
  }

  /** Stage 4: JavaScript bodies get their bare imports redirected and the environment token replaced. */
  function RewriteStage(st: State, env: Env): (o: Outcome)
    ensures st.ctype != Some(Js) ==> o == Next(st)
    ensures o.st == st.(body := o.st.body)
    ensures o.Next? && st.ctype == Some(Js) ==> o.st.body.Text?
  {
    if st.ctype != Some(Js) then Next(st)
    else match Content(st.body, env.decode)
      case Err(e) => Failed(e, st)
      case Ok(content) => Next(st.(body := Text(Imports.RewriteImports(content))))
  }

  /** Stage 5: a stylesheet becomes a JavaScript module. */
  function WrapStage(st: State, env: Env): (o: Outcome)
    ensures st.ctype != Some(Css) ==> o == Next(st)
    ensures o.Next? && st.ctype == Some(Css) ==> o.st.ctype == Some(Js) && o.st.body.Text?
    ensures o.st.path == st.path && o.st.status == st.status
  {
    if st.ctype != Some(Css) then Next(st)
    else match Content(st.body, env.decode)
      case Err(e) => Failed(e, st)
      case Ok(content) => Next(st.(ctype := Some(Js), body := Text(Styles.WrapCss(content))))
  }

  /**
   * `ctx.type.includes('image/')`, decided by the type: the two fixed
   * JavaScript and CSS types never contain it (`ImageTestIsIncludes`).
   */
  predicate IsImageType(t: Option<ContentType>)
  {
    t.Some? && match t.value
      case Js => false
      case Css => false
      case Image(m) => Contains(m, "image/")
      case Other(m) => Contains(m, "image/")
  }

  /** The module that inlines an image as a data URL. */
  function ImageModule(mime: string, bytes: seq<byte>): string
  {
    "export default \"data:" + mime + ";base64," + Base64.Encode(bytes) + "\""
  }

  /**
   * Stage 6: an image on a path containing `/src` becomes a module exporting
   * its data URL. The last middleware takes no `next`, so the chain ends here.
   */
  function InlineStage(st: State, env: Env): (o: Outcome)
    ensures o.Done? || o.Failed?
    ensures !(IsImageType(st.ctype) && Contains(st.path, "/src")) ==> o == Done(st)
    ensures o.st.path == st.path && o.st.status == st.status
  {
    if !(IsImageType(st.ctype) && Contains(st.path, "/src")) then Done(st)
    else match st.body
      case Stream(chunks) =>
        Done(st.(ctype := Some(Js), body := Text(ImageModule(MimeOf(st.ctype.value), Flatten(chunks)))))
      case _ => Failed(NotAStream, st)
  }

  const StageCount := 6

  /** The stages in the order they are registered. */
  function Stage(k: nat, st: State, env: Env): Outcome
    requires k < StageCount
  {
    if k == 0 then ResolveStage(st, env)
    else if k == 1 then ServeStage(st, env)
    else if k == 2 then SplitStage(st, env)
    else if k == 3 then RewriteStage(st, env)
    else if k == 4 then WrapStage(st, env)
    else InlineStage(st, env)
  }

  /** The chain from stage `k` on: a stage that returns without `next` or throws ends it. */
  function RunFrom(k: nat, st: State, env: Env): Outcome
    requires k <= StageCount
    decreases StageCount - k
  {
    if k == StageCount then Next(st)
    else match Stage(k, st, env)
      case Next(s) => RunFrom(k + 1, s, env)
      case other => other
  }

  function Run(st: State, env: Env): Outcome
  {
    RunFrom(0, st, env)
  }

  /** The data URL payload of an inlined image module, decoded; `None` if the text has another shape. */
  function DataPayload(text: string, mime: string): Option<seq<byte>>
  {
    var head := "export default \"data:" + mime + ";base64,";
    if |text| >= |head| + 1 && StartsWith(text, head) && EndsWith(text, "\"")
    then Base64.Decode(text[|head|..|text| - 1])
    else None
  }

  /** An inlined image carries exactly the file's bytes. */
  lemma ImageModuleRoundTrip(mime: string, bytes: seq<byte>)
    ensures DataPayload(ImageModule(mime, bytes), mime) == Some(bytes)
  {
    var head := "export default \"data:" + mime + ";base64,";
    var b64 := Base64.Encode(bytes);
    var text := ImageModule(mime, bytes);
    assert text == head + (b64 + "\"");
    StartsWithConcat(head, b64 + "\"");
    EndsWithConcat(head + b64, "\"");
    assert text[|head|..|text| - 1] == b64;
    Base64.RoundTrip(bytes);
  }

  /** The image test is the substring test on the MIME type the header reads back as. */
  lemma ImageTestIsIncludes(t: Option<ContentType>)
    ensures IsImageType(t) <==> t.Some? && Contains(MimeOf(t.value), "image/")
  {
    if t == Some(Js) {
      ScriptIsNotImage();
    } else if t == Some(Css) {
      StyleIsNotImage();
    }
  }

  lemma ScriptIsNotImage()
    ensures !Contains(MimeOf(Js), "image/")
  {
    NoImageInMime(MimeOf(Js));
  }

  lemma StyleIsNotImage()
    ensures !Contains(MimeOf(Css), "image/")
  {
    NoImageInMime(MimeOf(Css));
  }

  lemma {:induction false} NoImageInMime(m: string)
    requires 'g' !in m
    ensures !Contains(m, "image/")
    decreases |m|
  {
    if m != [] {
      assert !StartsWith(m, "image/") by {
        if |m| >= 6 { assert m[..6][3] == m[3]; }
      }
      NoImageInMime(m[1..]);
    }
  }

  /** After a successful resolution the chain goes on exactly as for a request of the resolved path. */
  lemma ResolvedRequest(path: string, query: Option<string>, env: Env, p: string)
    requires Resolver.Resolve(path, env.index, env.manifests) == Ok(p)
    ensures Run(Request(path, query), env) == RunFrom(1, Request(p, query), env)
  {
    RunStep(0, Request(path, query), env);
  }

  /** A resolver failure ends the chain with the error, before any other field changes. */
  lemma ResolveFailure(path: string, query: Option<string>, env: Env, f: Resolver.Failure)
    requires Resolver.Resolve(path, env.index, env.manifests) == Err(f)
    ensures Run(Request(path, query), env) == Failed(ResolveFailed(f), Request(path, query))
  {
    RunStep(0, Request(path, query), env);
  }

  /** A path no root holds ends the chain at the static responder with 404: no later stage runs. */
  lemma NotFound(path: string, query: Option<string>, env: Env)
    requires !StartsWith(path, Resolver.ModulesPrefix)
    requires FirstRoot(env.files, Roots, UrlPath(path)) == None
    ensures Run(Request(path, query), env) == Done(State(path, query, None, Empty, 404))
  {
    var st := Request(path, query);
    RunStep(0, st, env);
    RunStep(1, st, env);
  }

  /** The state after the static responder served the file for `path`. */
  function Served(path: string, query: Option<string>, env: Env): State
    requires FirstRoot(env.files, Roots, UrlPath(path)).Some?
  {
    var url := UrlPath(path);
    var i := FirstRoot(env.files, Roots, url).value;
    State(path, query, Some(StreamType(Extname(url))), Stream(env.files[(Roots[i], url)]), 200)
  }

  /** The first two stages on a served, unresolved path. */
  lemma ServedStages(path: string, query: Option<string>, env: Env)
    requires !StartsWith(path, Resolver.ModulesPrefix)
    requires FirstRoot(env.files, Roots, UrlPath(path)).Some?
    ensures Run(Request(path, query), env) == RunFrom(2, Served(path, query, env), env)
  {
    var st := Request(path, query);
    RunStep(0, st, env);
    RunStep(1, st, env);
  }

  /** The component a served `.vue` path parses to. */
  function ComponentOf(path: string, env: Env): Sfc.Descriptor
    requires FirstRoot(env.files, Roots, UrlPath(path)).Some?
  {
    var url := UrlPath(path);
    var i := FirstRoot(env.files, Roots, url).value;
    env.parse(env.decode(Flatten(env.files[(Roots[i], url)])))
  }

  /** The chain after the component splitter produced `code` of type `t` for a `.vue` path. */
  lemma AfterComponent(path: string, query: Option<string>, env: Env, code: string, t: ContentType)
    requires t == Js || t == Css
    ensures RunFrom(3, State(path, query, Some(t), Text(code), 200), env)
      == Done(State(path, query, Some(Js), Text(if t == Js then Imports.RewriteImports(code) else Styles.WrapCss(code)), 200))
  {
    if t == Js {
      AfterScript(State(path, query, Some(Js), Text(code), 200), env);
    } else {
      AfterStyle(State(path, query, Some(Css), Text(code), 200), env);
    }
  }

  /** A JavaScript body is rewritten, and neither wrapped nor inlined after that. */
  lemma AfterScript(s3: State, env: Env)
    requires s3.ctype == Some(Js) && Content(s3.body, env.decode).Ok?
    ensures RunFrom(3, s3, env) == Done(s3.(body := Text(Imports.RewriteImports(Content(s3.body, env.decode).value))))
  {
    var s4 := s3.(body := Text(Imports.RewriteImports(Content(s3.body, env.decode).value)));
    assert Stage(3, s3, env) == Next(s4);
    assert Stage(4, s4, env) == Next(s4);
    assert Stage(5, s4, env) == Done(s4);
    calc {
      RunFrom(3, s3, env);
      { RunStep(3, s3, env); }
      RunFrom(4, s4, env);
      { RunStep(4, s4, env); }
      RunFrom(5, s4, env);
      { RunStep(5, s4, env); }
      Done(s4);
    }
  }

  /** A stylesheet body skips the rewriter, is wrapped, and is not inlined after that. */
  lemma AfterStyle(s3: State, env: Env)
    requires s3.ctype == Some(Css) && Content(s3.body, env.decode).Ok?
    ensures RunFrom(3, s3, env) == Done(s3.(ctype := Some(Js), body := Text(Styles.WrapCss(Content(s3.body, env.decode).value))))
  {
    var s5 := s3.(ctype := Some(Js), body := Text(Styles.WrapCss(Content(s3.body, env.decode).value)));
    assert Stage(3, s3, env) == Next(s3);
    assert Stage(4, s3, env) == Next(s5);
    assert Stage(5, s5, env) == Done(s5);
    calc {
      RunFrom(3, s3, env);
      { RunStep(3, s3, env); }
      RunFrom(4, s3, env);
      { RunStep(4, s3, env); }
      RunFrom(5, s5, env);
      { RunStep(5, s5, env); }
      Done(s5);
    }
  }

  /** A body that is neither a component, JavaScript nor CSS reaches the image inliner as it is. */
  lemma SkipToInline(s2: State, env: Env)
    requires !EndsWith(s2.path, ".vue") && s2.ctype != Some(Js) && s2.ctype != Some(Css)
    ensures RunFrom(2, s2, env) == RunFrom(5, s2, env)
  {
    assert Stage(2, s2, env) == Next(s2);
    assert Stage(3, s2, env) == Next(s2);
    assert Stage(4, s2, env) == Next(s2);
    calc {
      RunFrom(2, s2, env);
      { RunStep(2, s2, env); }
      RunFrom(3, s2, env);
      { RunStep(3, s2, env); }
      RunFrom(4, s2, env);
      { RunStep(4, s2, env); }
      RunFrom(5, s2, env);
    }
  }

  /**
   * A component's script request: the script with its default export
   * rebound and the footer appended, then import-rewritten, served as JavaScript.
   */
  lemma ScriptRequest(path: string, query: Option<string>, env: Env)
    requires !StartsWith(path, Resolver.ModulesPrefix) && EndsWith(path, ".vue")
    requires query.None? || query == Some("")
    requires FirstRoot(env.files, Roots, UrlPath(path)).Some?
    requires ComponentOf(path, env).script.Some?
    ensures Run(Request(path, query), env) == Done(State(path, query, Some(Js),
      Text(Imports.RewriteImports(Sfc.MainCode(ComponentOf(path, env).script.value, path))), 200))
  {
    ServedStages(path, query, env);
    var s2 := Served(path, query, env);
    RunStep(2, s2, env);
    AfterComponent(path, query, env, Sfc.MainCode(ComponentOf(path, env).script.value, path), Js);
  }

  /**
   * In the script request only the component's own script is import-rewritten:
   * the synthesized footer imports name the component's absolute path and
   * come through the rewriter unchanged.
   */
  lemma ScriptRequestKeepsFooter(path: string, query: Option<string>, env: Env)
    requires !StartsWith(path, Resolver.ModulesPrefix) && EndsWith(path, ".vue")
    requires path[0] == '/' && Imports.NoMatchIn(path)
    requires query.None? || query == Some("")
    requires FirstRoot(env.files, Roots, UrlPath(path)).Some?
    requires ComponentOf(path, env).script.Some?
    ensures var script := ComponentOf(path, env).script.value;
      Run(Request(path, query), env) == Done(State(path, query, Some(Js),
        Text(Imports.ReplaceEnv(Imports.InsertModulesPrefix(Sfc.RewriteDefaultExport(script)) + Sfc.Footer(path))), 200))
  {
    ScriptRequest(path, query, env);
    Imports.MainModuleImports(ComponentOf(path, env).script.value, path);
  }

  /** A script request for a component without a script block throws at the splitter. */
  lemma MissingScriptRequest(path: string, query: Option<string>, env: Env)
    requires !StartsWith(path, Resolver.ModulesPrefix) && EndsWith(path, ".vue")
    requires query.None? || query == Some("")
    requires FirstRoot(env.files, Roots, UrlPath(path)).Some?
    requires ComponentOf(path, env).script.None?
    ensures Run(Request(path, query), env) == Failed(ComponentFailed(Sfc.MissingScript), Served(path, query, env))
  {
    ServedStages(path, query, env);
    RunStep(2, Served(path, query, env), env);
  }

  /** A component's template request: the compiler's output for the template, import-rewritten. */
  lemma TemplateRequest(path: string, env: Env)
    requires !StartsWith(path, Resolver.ModulesPrefix) && EndsWith(path, ".vue")
    requires FirstRoot(env.files, Roots, UrlPath(path)).Some?
    requires ComponentOf(path, env).template.Some?
    ensures Run(Request(path, Some("template")), env) == Done(State(path, Some("template"), Some(Js),
      Text(Imports.RewriteImports(env.compile(ComponentOf(path, env).template.value, path))), 200))
  {
    var q := Some("template");
    ServedStages(path, q, env);
    RunStep(2, Served(path, q, env), env);
    AfterComponent(path, q, env, env.compile(ComponentOf(path, env).template.value, path), Js);
  }

  /**
   * A component's style request: the style blocks joined, typed as CSS, so
   * the import rewriter skips them and the CSS wrapper turns them into a module.
   */
  lemma StyleRequest(path: string, env: Env)
    requires !StartsWith(path, Resolver.ModulesPrefix) && EndsWith(path, ".vue")
    requires FirstRoot(env.files, Roots, UrlPath(path)).Some?
    ensures Run(Request(path, Some("style")), env) == Done(State(path, Some("style"), Some(Js),
      Text(Styles.WrapCss(Sfc.JoinStyles(ComponentOf(path, env).styles))), 200))
  {
    var q := Some("style");
    ServedStages(path, q, env);
    var s2 := Served(path, q, env);
    var css := Sfc.JoinStyles(ComponentOf(path, env).styles);
    assert Sfc.PartOf(q) == Sfc.StylePart;
    assert Sfc.Split(ComponentOf(path, env), Sfc.StylePart, path, env.compile) == Ok(Sfc.Code(css, Css));
    assert Stage(2, s2, env) == Next(State(path, q, Some(Css), Text(css), 200));
    RunStep(2, s2, env);
    AfterComponent(path, q, env, css, Css);
  }

  /** Any other discriminator leaves the body undefined: status 204 and no content type. */
  lemma OtherPartRequest(path: string, q: string, env: Env)
    requires !StartsWith(path, Resolver.ModulesPrefix) && EndsWith(path, ".vue")
    requires q != "" && q != "template" && q != "style"
    requires FirstRoot(env.files, Roots, UrlPath(path)).Some?
    ensures Run(Request(path, Some(q)), env) == Done(State(path, Some(q), None, Empty, 204))
  {
    ServedStages(path, Some(q), env);
    var s2 := Served(path, Some(q), env);
    RunStep(2, s2, env);
    var s3 := Stage(2, s2, env).st;
    RunStep(3, s3, env);
    RunStep(4, s3, env);
    RunStep(5, s3, env);
  }

  /**
   * A served file that is no component and whose type is neither JavaScript,
   * CSS nor an image passes every later stage untouched: the response is the
   * file's stream with its extension's type and status 200.
   */
  lemma PlainFileRequest(path: string, query: Option<string>, env: Env, m: string)
    requires !StartsWith(path, Resolver.ModulesPrefix) && !EndsWith(path, ".vue")
    requires FirstRoot(env.files, Roots, UrlPath(path)).Some?
    requires StreamType(Extname(UrlPath(path))) == Other(m) && !Contains(m, "image/")
    ensures Run(Request(path, query), env) == Done(Served(path, query, env))
    ensures Served(path, query, env).body == Stream(env.files[(Roots[FirstRoot(env.files, Roots, UrlPath(path)).value], UrlPath(path))])
    ensures Served(path, query, env).status == 200 && Served(path, query, env).ctype == Some(Other(m))
  {
    ServedStages(path, query, env);
    var s2 := Served(path, query, env);
    SkipToInline(s2, env);
    assert !IsImageType(s2.ctype);
    assert Stage(5, s2, env) == Done(s2);
    RunStep(5, s2, env);
  }

  /** The bytes a served path delivers. */
  function FileBytes(path: string, env: Env): seq<byte>
    requires FirstRoot(env.files, Roots, UrlPath(path)).Some?
  {
    var url := UrlPath(path);
    Flatten(env.files[(Roots[FirstRoot(env.files, Roots, url).value], url)])
  }

  /** A served JavaScript file is decoded and import-rewritten. */
  lemma ScriptFileRequest(path: string, query: Option<string>, env: Env)
    requires !StartsWith(path, Resolver.ModulesPrefix)
    requires FirstRoot(env.files, Roots, UrlPath(path)).Some?
    requires TypeOfExt(Extname(UrlPath(path))) == Some(Js)
    ensures Run(Request(path, query), env)
      == Done(State(path, query, Some(Js), Text(Imports.RewriteImports(env.decode(FileBytes(path, env)))), 200))
  {
    ServedStages(path, query, env);
    var s2 := Served(path, query, env);
    NotVue(path);
    assert Stage(2, s2, env) == Next(s2);
    RunStep(2, s2, env);
    AfterScript(s2, env);
  }

  /** A served stylesheet is wrapped into a module and is not import-rewritten. */
  lemma StylesheetRequest(path: string, query: Option<string>, env: Env)
    requires !StartsWith(path, Resolver.ModulesPrefix)
    requires FirstRoot(env.files, Roots, UrlPath(path)).Some?
    requires TypeOfExt(Extname(UrlPath(path))) == Some(Css)
    ensures Run(Request(path, query), env)
      == Done(State(path, query, Some(Js), Text(Styles.WrapCss(env.decode(FileBytes(path, env)))), 200))
  {
    ServedStages(path, query, env);
    var s2 := Served(path, query, env);
    NotVue(path);
    assert Stage(2, s2, env) == Next(s2);
    RunStep(2, s2, env);
    AfterStyle(s2, env);
  }

  /** An image on a path containing `/src` becomes a module exporting its data URL. */
  lemma ImageRequest(path: string, query: Option<string>, env: Env, mime: string)
    requires !StartsWith(path, Resolver.ModulesPrefix) && Contains(path, "/src")
    requires FirstRoot(env.files, Roots, UrlPath(path)).Some?
    requires TypeOfExt(Extname(UrlPath(path))) == Some(Image(mime)) && StartsWith(mime, "image/")
    ensures Run(Request(path, query), env)
      == Done(State(path, query, Some(Js), Text(ImageModule(mime, FileBytes(path, env))), 200))
  {
    ServedStages(path, query, env);
    var s2 := Served(path, query, env);
    NotVue(path);
    SkipToInline(s2, env);
    assert s2.ctype == Some(Image(mime));
    ContainsAt(mime, "image/", 0);
    assert IsImageType(s2.ctype);
    assert s2.body == Stream(s2.body.chunks) && Flatten(s2.body.chunks) == FileBytes(path, env);
    InlineImageStage(s2, env, mime, FileBytes(path, env));
    RunStep(5, s2, env);
  }

  /** The image inliner on a stream of an image type, on a path containing `/src`. */
  lemma InlineImageStage(s: State, env: Env, mime: string, bytes: seq<byte>)
    requires s.ctype == Some(Image(mime)) && IsImageType(s.ctype) && Contains(s.path, "/src")
    requires s.body.Stream? && Flatten(s.body.chunks) == bytes
    ensures Stage(5, s, env) == Done(s.(ctype := Some(Js), body := Text(ImageModule(mime, bytes))))
  {
  }

  /** An image on a path without `/src` is served as the file stream, with its image type. */
  lemma ImageOutsideSrc(path: string, query: Option<string>, env: Env, mime: string)
    requires !StartsWith(path, Resolver.ModulesPrefix) && !Contains(path, "/src")
    requires FirstRoot(env.files, Roots, UrlPath(path)).Some?
    requires TypeOfExt(Extname(UrlPath(path))) == Some(Image(mime))
    ensures Run(Request(path, query), env) == Done(Served(path, query, env))
    ensures Served(path, query, env).ctype == Some(Image(mime))
  {
    ServedStages(path, query, env);
    var s2 := Served(path, query, env);
    NotVue(path);
    SkipToInline(s2, env);
    assert Stage(5, s2, env) == Done(s2);
    RunStep(5, s2, env);
  }

  /** A path whose extension has a known type is not a component. */
  lemma NotVue(path: string)
    requires TypeOfExt(Extname(UrlPath(path))).Some?
    ensures !EndsWith(path, ".vue")
  {
    if EndsWith(path, ".vue") {
      assert |path| >= 4;
      VueFileType(path);
    }
  }

  /**
   * No request falls off the end of the chain: it ends at a stage that
   * returns without `next` (at the latest the image inliner) or throws.
   */
  lemma {:induction false} ChainEnds(k: nat, st: State, env: Env)
    requires k < StageCount
    ensures !RunFrom(k, st, env).Next?
    decreases StageCount - k
  {
    RunStep(k, st, env);
    if Stage(k, st, env).Next? {
      assert k < StageCount - 1;
      ChainEnds(k + 1, Stage(k, st, env).st, env);
    }
  }

  /** How a stage's method ends: `await next()`, `return`, or a thrown error. */
  datatype Flow = Continue | Finish | Throw(error: Error)

  function FlowOf(o: Outcome): Flow
  {
    match o
    case Next(_) => Continue
    case Done(_) => Finish
    case Failed(e, _) => Throw(e)
  }

  lemma RunStep(k: nat, st: State, env: Env)
    requires k < StageCount
    ensures Stage(k, st, env).Next? ==> RunFrom(k, st, env) == RunFrom(k + 1, Stage(k, st, env).st, env)
    ensures !Stage(k, st, env).Next? ==> RunFrom(k, st, env) == Stage(k, st, env)
  {
  }

  /** Koa's context for one request; the stages update its fields in place. */
  class RequestCtx {
    var path: string
    var query: Option<string>
    var ctype: Option<ContentType>
    var body: Body
    var status: nat

    constructor(path: string, query: Option<string>)
      ensures Snapshot() == Request(path, query)
    {
      this.path := path;
      this.query := query;
      ctype := None;
      body := Empty;
      status := 404;
    }

    function Snapshot(): State
      reads this
    {
      State(path, query, ctype, body, status)
    }

    /** `typeof ctx.body === 'string' ? ctx.body : await streamToString(ctx.body)`. */
    method ReadContent(decode: seq<byte> -> string) returns (r: Result<string, Error>)
      ensures r == Content(body, decode)
    {
      match body
      case Text(t) =>
        r := Ok(t);
      case Stream(chunks) =>
        var bytes := Drain(chunks);
        r := Ok(decode(bytes));
      case Empty =>
        r := Err(NotAStream);
    }

    method ResolveModules(env: Env) returns (flow: Flow)
      modifies this
      ensures flow == FlowOf(ResolveStage(old(Snapshot()), env))
      ensures Snapshot() == ResolveStage(old(Snapshot()), env).st
    {
      if StartsWith(path, Resolver.ModulesPrefix) {
        var moduleName := path[|Resolver.ModulesPrefix|..];
        if env.index.Some? {
          var i := Resolver.FindEntry(env.index.value, moduleName);
          if i.None? {
            return Throw(ResolveFailed(Resolver.NoStoreEntry(moduleName)));
          }
          var packageName := Resolver.StoreDirName(env.index.value[i.value]);
          moduleName := ".pnpm/" + packageName + "/node_modules/" + moduleName;
        }
        if moduleName !in env.manifests {
          return Throw(ResolveFailed(Resolver.ManifestUnreadable(moduleName)));
        }
        path := "/node_modules/" + moduleName + "/" + Resolver.ModuleText(env.manifests[moduleName]);
      }
      return Continue;
    }

    method ServeStatic(env: Env) returns (flow: Flow)
      modifies this
      ensures flow == FlowOf(ServeStage(old(Snapshot()), env))
      ensures Snapshot() == ServeStage(old(Snapshot()), env).st
    {
      var url := UrlPath(path);
      var found: Option<nat> := None;
      var i := 0;
      while i < |Roots|
        invariant 0 <= i <= |Roots|
        invariant found.None? ==> forall k :: 0 <= k < i ==> (Roots[k], url) !in env.files
        invariant found.Some? ==> FirstRoot(env.files, Roots, url) == found
      {
        if (Roots[i], url) in env.files {
          found := Some(i);
          break;
        }
        i := i + 1;
      }
      if found.None? {
        status := 404;
        return Finish;
      }
      ctype := Some(StreamType(Extname(url)));
      body := Stream(env.files[(Roots[found.value], url)]);
      status := 200;
      return Continue;
    }

    method SplitComponent(env: Env) returns (flow: Flow)
      modifies this
      ensures flow == FlowOf(SplitStage(old(Snapshot()), env))
      ensures Snapshot() == SplitStage(old(Snapshot()), env).st
    {
      if !EndsWith(path, ".vue") {
        return Continue;
      }
      if !body.Stream? {
        return Throw(NotAStream);
      }
      var bytes := Drain(body.chunks);
      var descriptor := env.parse(env.decode(bytes));
      var part := Sfc.PartOf(query);
      var code: Option<string> := None;
      if part == Sfc.ScriptPart {
        if descriptor.script.None? {
          return Throw(ComponentFailed(Sfc.MissingScript));
        }
        var script := descriptor.script.value;
        script := Sfc.RewriteDefaultExport(script);
        script := script + Sfc.Footer(path);
        code := Some(script);
        ctype := Some(Js);
      } else if part == Sfc.TemplatePart {
        if descriptor.template.None? {
          return Throw(ComponentFailed(Sfc.MissingTemplate));
        }
        code := Some(env.compile(descriptor.template.value, path));
        ctype := Some(Js);
      } else if part == Sfc.StylePart {
        code := Some(Sfc.JoinStyles(descriptor.styles));
        ctype := Some(Css);
      }
      if code.None? {
        body := Empty;
        ctype := None;
        status := 204;
      } else {
        body := Text(code.value);
      }
      return Continue;
    }

    method RewriteModules(env: Env) returns (flow: Flow)
      modifies this
      ensures flow == FlowOf(RewriteStage(old(Snapshot()), env))
      ensures Snapshot() == RewriteStage(old(Snapshot()), env).st
    {
      if ctype != Some(Js) {
        return Continue;
      }
      var content := ReadContent(env.decode);
      if content.Err? {
        return Throw(content.error);
      }
      var code := Imports.InsertModulesPrefix(content.value);
      code := Imports.ReplaceEnv(code);
      body := Text(code);
      return Continue;
    }

    method WrapStyles(env: Env) returns (flow: Flow)
      modifies this
      ensures flow == FlowOf(WrapStage(old(Snapshot()), env))
      ensures Snapshot() == WrapStage(old(Snapshot()), env).st
    {
      if ctype != Some(Css) {
        return Continue;
      }
      var content := ReadContent(env.decode);
      if content.Err? {
        return Throw(content.error);
      }
      ctype := Some(Js);
      body := Text(Styles.WrapCss(content.value));
      return Continue;
    }

    method InlineImage(env: Env) returns (flow: Flow)
      modifies this
      ensures flow == FlowOf(InlineStage(old(Snapshot()), env))
      ensures Snapshot() == InlineStage(old(Snapshot()), env).st
    {
      if !(IsImageType(ctype) && Contains(path, "/src")) {
        return Finish;
      }
      var imageType := MimeOf(ctype.value);
      if !body.Stream? {
        return Throw(NotAStream);
      }
      var bytes := Drain(body.chunks);
      var content := Base64.Encode(bytes);
      ctype := Some(Js);
      body := Text("export default \"data:" + imageType + ";base64," + content + "\"");
      return Finish;
    }

    /** The middleware chain: each stage in turn, until one returns without `next` or throws. */
    method Handle(env: Env) returns (flow: Flow)
      modifies this
      ensures flow == FlowOf(Run(old(Snapshot()), env))
      ensures Snapshot() == Run(old(Snapshot()), env).st
    {
      ghost var s := Snapshot();
      RunStep(0, s, env);
      flow := ResolveModules(env);
      if flow != Continue {
        return;
      }
      s := Snapshot();
      RunStep(1, s, env);
      flow := ServeStatic(env);
      if flow != Continue {
        return;
      }
      s := Snapshot();
      RunStep(2, s, env);
      flow := SplitComponent(env);
      if flow != Continue {
        return;
      }
      s := Snapshot();
      RunStep(3, s, env);
      flow := RewriteModules(env);
      if flow != Continue {
        return;
      }
      s := Snapshot();
      RunStep(4, s, env);
      flow := WrapStyles(env);
      if flow != Continue {
        return;
      }
      s := Snapshot();
      RunStep(5, s, env);
      flow := InlineImage(env);
    }
  }
}
