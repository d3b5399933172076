# mini-vite request pipeline in Dafny

mini-vite is a small development server for Vue single-file components. It sits on Koa.
Every request passes through six middleware stages registered in `jvite.js`, in this order:

1. The **package resolver** rewrites `/@modules/<name>` to the package's entry file under
   `node_modules`. When a pnpm lock file was read, the path goes through pnpm's
   store directory.
2. The **static responder** serves the first of `./<path>` and `public/<path>` that exists,
   as a stream typed by its extension. Without one it answers 404 and the chain stops.
3. The **SFC splitter** answers a `.vue` path with one part of the component:
   - the script, with `export default` rebound and four lines appended: two imports, the
     render binding and the default export;
   - the compiled template;
   - or the style blocks joined.
4. The **import rewriter** works on JavaScript bodies:
   - it redirects bare specifiers after `from` to `/@modules/`;
   - it replaces `process.env.NODE_ENV` with `"development"`.
5. The **CSS wrapper** turns a stylesheet, with its line feeds removed, into a module that
   injects a `<style>` element.
6. The **image inliner** turns an image on a path containing `/src` into a module that exports its
   base 64 data URL (section 4 of RFC 4648).

The model has these modules:
- `Strings`: prefix, suffix and substring tests, ASCII lower-casing, and JavaScript's `\s`.
- `Streams`: a file stream as the list of chunks it delivers, and `Drain`, the loop of
  `streamToString`.
- `Base64`: the encoding with its decoder.
- `Resolver`, `Static`, `Sfc`, `Imports` and `Styles`: the pure rewriting rules, each with
  its scanners and lemmas.
- `Pipeline`:
  - every stage as a function on a `State` value;
  - the chain `Run`, which stops at a stage that returns without `next` or throws;
  - the class `RequestCtx`, whose fields `path`, `query`, `ctype`, `body` and `status` the
    stage methods update in place. Each method is proved to agree with its stage function,
    and `Handle` is proved to agree with `Run`.

Some of Koa's behaviour is modelled where the chain depends on it:
- The status is 404 until a body is assigned.
- Assigning a body sets 200.
- Assigning `undefined` sets 204 and drops the content type.
- `ctx.type = ext` with an unknown extension removes the header, and a stream body then
  makes it `application/octet-stream`.
- The type reads back without parameters: `'js'` reads as `application/javascript`.

Everything outside the program is a parameter (`Pipeline.Env`):
- the lock-file keys;
- the `module` field of each readable package.json;
- the files under the two roots;
- the component parser;
- the template compiler;
- the UTF-8 decoder.

## Model

| member | source | states |
|---|---|---|
| Streams.Drain | jvite.js:20-29 | draining a stream yields exactly the concatenation of its chunks in delivery order |
| Streams.FlattenConcat | jvite.js:22-25 | splitting the chunk list in two splits the drained bytes the same way, so chunk boundaries do not matter |
| Resolver.FindEntry | jvite.js:46-48 | the result is the first index entry that starts with `/` + name; no earlier entry starts so; `None` only when no entry does |
| Resolver.PrefixMatchNotSegment | jvite.js:46-48 | the match is a prefix test: `vue` selects an earlier `/vue-router@…` entry |
| Resolver.FindUnique | jvite.js:47-48 | when exactly one entry starts with `/` + name, that entry is found |
| Resolver.StoreDirNameIsSegment | jvite.js:49-53 | the store directory name never contains `/` |
| Resolver.StoreDirNamePlain | jvite.js:49-53 | for a key without parentheses, only the leading character goes and every `/` becomes `+` |
| Resolver.StoreDirNamePeerThen | jvite.js:49-53 | for a key followed by a peer group, the first `(` becomes `_` and the first `)` is removed; the rest only has `/` mapped |
| Resolver.StoreDirNamePeer | jvite.js:49-53 | `/key(peer)` maps to `key` with `+` for `/`, then `_`, then the peer |
| Resolver.StoreDirNameScopedPeer | jvite.js:47-53 | `/@scope/name@v(peer)` maps to `@scope+name@v_peer`, the shape of `/@vue/server-renderer@3.4.3(vue@3.4.3)` |
| Resolver.StoreDirNameTwoPeers | jvite.js:52-53 | with two peer groups, the second keeps its parentheses |
| Resolver.Resolve | jvite.js:41-60 | a path outside `/@modules/` is returned unchanged; a resolved module path lies under `/node_modules/` |
| Resolver.ResolveUniqueEntry | jvite.js:45-60 | with one matching entry and a manifest holding `module`, the path ends with `/` + that field through that entry's store directory |
| Resolver.ResolveFlatEntry | jvite.js:41-60 | without a lock file, `/@modules/<name>` whose manifest holds `module` resolves to `/node_modules/<name>/` + that field |
| Static.FirstRoot | jvite.js:71-78 | the result is the first root, in order, that holds the file; `None` exactly when no root does |
| Static.Extname | jvite.js:84 | the extension is empty or is a `.` followed by no other `.` and no `/` |
| Static.ExtnameOfSuffix | jvite.js:84 | a path ending in `.ext` has extension `.ext`, unless that dot opens the last segment |
| Static.VueFileType | jvite.js:84-91 | a `.vue` file is served as `application/octet-stream`: neither script, style nor image |
| Static.ScriptExtensions | jvite.js:84-128 | the served type is JavaScript exactly when the lower-cased extension is `.js` or `.mjs` |
| Static.UpperCaseExtensions | jvite.js:84 | the type lookup ignores letter case: `.JS`, `.MJS`, `.CSS`, `.JPG` and `.PNG` get the types of their lower-case forms |
| Sfc.PartOf | jvite.js:96-112 | a missing or empty discriminator selects the script; each named part is selected by exactly its word |
| Sfc.DefaultExportEnd | jvite.js:98 | a match starts with `export` and spans at least 15 characters of the text |
| Sfc.DefaultExportMatch | jvite.js:98 | `export`, whitespace, `default`, whitespace is matched with all of its whitespace, up to the next non-space |
| Sfc.RewriteExportDefault | jvite.js:98 | each `export\s+default\s+` is replaced by `const __script = ` and scanning goes on after it |
| Sfc.RewriteWithoutExport | jvite.js:98 | a script without the word `export` passes through unchanged |
| Sfc.RewriteSkip | jvite.js:98 | code without `export` before text starting with `e` is kept, and the rewrite goes on in that text |
| Sfc.ScriptAfterCode | jvite.js:97-98 | a script of `export`-free code followed by `export default <expr>` keeps the code and rebinds only the default export |
| Sfc.ExportFreeNoMatch | jvite.js:98 | text without the word `export` holds no `export\s+default\s+` match at any position |
| Sfc.NamedExportNoMatch | jvite.js:98 | `export ` followed by a name (not `d`, not a space) is no default-export match |
| Sfc.ExportSeam | jvite.js:98 | a match found in text not ending in `d` is the same as the match found in that text followed by text starting with `e` |
| Sfc.RewriteSkipNoMatch | jvite.js:98 | code where no default-export match starts anywhere (named exports allowed), not ending in `d`, is kept in front of text starting with `e`, and the rewrite goes on in that text |
| Sfc.ScriptAfterExports | jvite.js:97-98 | a script whose code (possibly with named exports) precedes `export default <expr>` keeps that code and rebinds only the default export |
| Sfc.MainScriptBinding | jvite.js:97-98 | `export default <expr>` becomes `const __script = <expr>` |
| Sfc.MainCodeExportsBinding | jvite.js:98-103 | the main module starts with the rewritten script and ends with `export default __script` |
| Sfc.Split | jvite.js:96-116 | fails exactly when the requested script or template block is missing; style gives CSS and everything else JavaScript; `undefined` exactly for an unknown part |
| Sfc.JoinStylesConcat | jvite.js:113 | joining two runs of style blocks is joining each and concatenating |
| Sfc.JoinOneStyle | jvite.js:113 | a single style block is served as it is |
| Sfc.JoinStylesLength | jvite.js:113 | the joined length is the sum of the block lengths: nothing is added between blocks |
| Imports.BareImportEnd | jvite.js:136 | a match ends within the text, after at least `from`, one space and a quote |
| Imports.InsertLength | jvite.js:136 | the output is 10 characters longer per match |
| Imports.InsertIdempotent | jvite.js:136 | inserting the prefix twice gives the same text as inserting it once |
| Imports.InsertConcat | jvite.js:136 | the rewrite distributes over a concatenation whose right part cannot continue or complete a match |
| Imports.WithoutFrom | jvite.js:136 | a text without the word `from` is left unchanged |
| Imports.SkipNoFrom | jvite.js:136 | a `from`-free prefix passes through when what follows cannot complete the word |
| Imports.BareSpecifier | jvite.js:136 | `from`, whitespace, a quote and a bare specifier get `/@modules/` right after the quote |
| Imports.PathSpecifier | jvite.js:136 | a specifier starting with `.` or `/` is left as it is |
| Imports.NeedsWhitespace | jvite.js:136 | `from` directly followed by a quote is no match |
| Imports.SkipNoMatch | jvite.js:136 | a text in which no match begins passes through unchanged when what follows cannot continue a match |
| Imports.SpaceFreeNoMatch | jvite.js:136 | no match begins in a text without whitespace, since `\s+` must follow `from` |
| Imports.FromFreeNoMatch | jvite.js:136 | no match begins in a text without the word `from` |
| Imports.FooterUnchanged | jvite.js:100-136 | for a component path starting with `/` in which no `from`, whitespace, quote match begins, the lines the splitter appends pass through the rewrite unchanged |
| Imports.MainModuleImports | jvite.js:99-136 | for such a path, in the main module only the rewritten script changes; the footer follows it unchanged |
| Imports.EnvAbsent | jvite.js:137 | a text without `process.env.NODE_ENV` is unchanged |
| Imports.EnvSkipNoP | jvite.js:137 | a run without `p` passes through the replacement |
| Imports.NoEnvLeft | jvite.js:137 | after the replacement no `process.env.NODE_ENV` is left |
| Imports.EnvAtToken | jvite.js:137 | an occurrence of `process.env.NODE_ENV` after text without `p` becomes `"development"` and the replacement goes on after it |
| Imports.EnvLength | jvite.js:137 | each of the occurrences the scan finds shortens the text by 7 characters (20 replaced by 13); nothing else is removed or added |
| Styles.StripNewlines | jvite.js:149 | the result has no line feed and is no longer than its input |
| Styles.StripWithoutNewlines | jvite.js:149 | a text without line feeds is unchanged |
| Styles.StripConcat | jvite.js:149 | stripping works piecewise, so the kept characters stay in order |
| Styles.StripIdempotent | jvite.js:149 | stripping twice is stripping once |
| Styles.StripLength | jvite.js:149 | exactly the line feeds are removed: the length drops by their count |
| Styles.WrapRoundTrip | jvite.js:148-154 | the text between the fixed prefix and suffix of the module is the stylesheet without line feeds |
| Styles.WrapInjective | jvite.js:148-154 | stylesheets without line feeds that wrap to the same module are equal |
| Styles.WrapExportsCss | jvite.js:149-154 | the module starts with `const css = "` and ends with `export default css` |
| Base64.DigitValue | jvite.js:165 | each alphabet character decodes to the sextet whose digit it is |
| Base64.EncodeLength | jvite.js:165 | the encoding has four characters per started group of three bytes |
| Base64.EncodeAlphabet | jvite.js:165 | every character is in the alphabet, except `=` padding in the last two places |
| Base64.RoundTrip | jvite.js:165 | decoding the encoding gives the bytes back |
| Base64.Injective | jvite.js:165 | different byte strings have different encodings |
| Base64.Section10Examples | jvite.js:165 | the test vectors of section 10 of RFC 4648 for "", "f", "fo", "foo" and "foobar" |
| Pipeline.ResolveStage | jvite.js:40-63 | only the path can change; a path outside `/@modules/` continues unchanged; a failure leaves the context as it was |
| Pipeline.ServeStage | jvite.js:67-87 | the chain ends exactly when no root holds the file, with status 404; otherwise the body is a stream and the status 200 |
| Pipeline.SplitStage | jvite.js:90-119 | a path not ending in `.vue` continues unchanged; path and query are never changed |
| Pipeline.RewriteStage | jvite.js:124-140 | only a JavaScript body is touched; only the body changes; a rewritten body is a string |
| Pipeline.WrapStage | jvite.js:143-159 | only a CSS body is touched; it becomes a JavaScript string body; path and status stay |
| Pipeline.InlineStage | jvite.js:162-169 | the stage never calls `next`: the chain ends here; nothing changes unless the type is an image type and the path contains `/src` |
| Pipeline.ImageTestIsIncludes | jvite.js:163 | the image test holds exactly when the type's MIME string contains `image/` |
| Pipeline.NoImageInMime | jvite.js:163 | a MIME string without `g` never contains `image/` |
| Pipeline.ImageModuleRoundTrip | jvite.js:165-167 | the data URL in an inlined image module decodes to exactly the file's bytes |
| Pipeline.ChainEnds | jvite.js:162-169 | no request runs past the last stage: the chain always ends at a stage that returns without `next` or throws |
| Pipeline.ResolvedRequest | jvite.js:40-63 | after a successful resolution the chain runs as for a request of the resolved path |
| Pipeline.ResolveFailure | jvite.js:47-59 | a resolver failure ends the chain with that error and the request unchanged |
| Pipeline.NotFound | jvite.js:79-82 | a file in no root ends the chain with 404, no type and no body |
| Pipeline.ServedStages | jvite.js:67-87 | a found file goes on with its stream, its extension's type and status 200 |
| Pipeline.AfterComponent | jvite.js:124-169 | component JavaScript is import-rewritten and component CSS is wrapped, and neither is inlined |
| Pipeline.AfterScript | jvite.js:128-163 | a JavaScript string body is rewritten, then neither wrapped nor inlined |
| Pipeline.AfterStyle | jvite.js:128-163 | a CSS string body skips the rewriter, is wrapped into JavaScript, and is not inlined |
| Pipeline.ScriptRequest | jvite.js:96-137 | a script request yields the main module, import-rewritten, as JavaScript with status 200 |
| Pipeline.ScriptRequestKeepsFooter | jvite.js:99-137 | for such a path, only the component's own script goes through the specifier pass in the script response |
| Pipeline.MissingScriptRequest | jvite.js:97 | a script request for a component without a script throws, with the served stream in the context |
| Pipeline.TemplateRequest | jvite.js:105-137 | a template request yields the compiler's output, import-rewritten, as JavaScript |
| Pipeline.StyleRequest | jvite.js:112-156 | a style request yields the joined style blocks wrapped as a module, never import-rewritten |
| Pipeline.OtherPartRequest | jvite.js:116 | any other discriminator leaves no body, no type and status 204 |
| Pipeline.ScriptFileRequest | jvite.js:84-137 | a served `.js` file is decoded and import-rewritten |
| Pipeline.StylesheetRequest | jvite.js:84-156 | a served `.css` file is wrapped as a module and not import-rewritten |
| Pipeline.PlainFileRequest | jvite.js:67-169 | a served file that is no component and whose type is neither JavaScript, CSS nor an image ends the chain with its own stream, its extension's type and status 200 |
| Pipeline.ImageRequest | jvite.js:163-167 | an image whose path contains `/src` becomes the data-URL module of its bytes, and the chain ends |
| Pipeline.ImageOutsideSrc | jvite.js:163 | an image whose path lacks `/src` is served as its stream with its image type |
| Pipeline.NotVue | jvite.js:84-91 | a path whose extension has a known type is not a component |
| Pipeline.RequestCtx.constructor | jvite.js:40 | a new context holds the request's path and query, no type, no body and status 404 |
| Pipeline.RequestCtx.ReadContent | jvite.js:92-147 | a string body is read as it is, a stream is drained and decoded, and no body is an error |
| Pipeline.RequestCtx.ResolveModules | jvite.js:40-63 | flow and new fields are exactly those of the resolver stage on the old fields |
| Pipeline.RequestCtx.ServeStatic | jvite.js:67-87 | the search loop finds the first root holding the file; flow and fields are those of the static stage |
| Pipeline.RequestCtx.SplitComponent | jvite.js:90-119 | flow and new fields are exactly those of the splitter stage on the old fields |
| Pipeline.RequestCtx.RewriteModules | jvite.js:124-140 | flow and new fields are exactly those of the rewriter stage on the old fields |
| Pipeline.RequestCtx.WrapStyles | jvite.js:143-159 | flow and new fields are exactly those of the CSS stage on the old fields |
| Pipeline.RequestCtx.InlineImage | jvite.js:162-169 | flow and new fields are exactly those of the image stage on the old fields |
| Pipeline.RequestCtx.Handle | jvite.js:40-169 | running the stages in order on the context gives the outcome and final fields of `Run` |

## Left out

- The Koa application, the listener and the `await next()` cooperative scheduling (jvite.js:37, 171-173). The chain is modelled as sequential calls.
- The lock-file read and its YAML parse (jvite.js:11-18). The list of package keys, or its absence, is an input.
- `fs.existsSync`, `createReadStream`, `readFileSync` and `JSON.parse` (jvite.js:59, 74, 85). The files under the two roots are a map, and the manifests are a map from package directory to its optional `module` field.
- `path.join` normalisation (jvite.js:9, 55, 58, 73). Paths are joined with plain `/`.
- The pattern built from the module name (jvite.js:46) is modelled as a literal prefix test. Regular-expression metacharacters in a module name are not given their pattern meaning.
- Koa's full extension-to-MIME table (jvite.js:84). A small table of the types the program relies on is used. `.js` is taken to read back as `application/javascript`, as in mime-db up to version 1.52. Letter case is folded for ASCII letters only. JavaScript's `toLowerCase` also folds non-ASCII letters, but the only one whose lower case is a single ASCII letter is the Kelvin sign, which becomes `k`, and no extension of the table contains a `k`.
- `@vue/compiler-sfc` `parse` and `compileTemplate` (jvite.js:93, 106-110) are uninterpreted functions in `Pipeline.Env`.
- Byte-to-text decoding in `streamToString` (jvite.js:25) is a parameter. Stream errors (jvite.js:27) are not modelled.
- `stringToStream` (jvite.js:30-35) is unused by the program.
- Styles.WrapCss: quotes and backslashes in the stylesheet are not escaped. This matches the program, and the generated module can then be invalid JavaScript.
- Imports.FooterUnchanged: it requires that no `from`, whitespace, quote match begins inside the component path. Koa's `ctx.path` is not percent-decoded and holds no raw whitespace, so this covers every request path (`Imports.SpaceFreeNoMatch`); it also covers every path without the word `from` (`Imports.FromFreeNoMatch`).
- Imports.MainModuleImports: it carries the same requirement on the component path as `Imports.FooterUnchanged`, for the same reason.
- Pipeline.ScriptRequestKeepsFooter: it carries the same requirement on the component path as `Imports.FooterUnchanged`, for the same reason.
- Pipeline.ImageRequest: it requires that the image MIME type starts with `image/`, which holds for every image type of the table.
- test/yaml.js is a scratch script outside the pipeline. Only its example key and directory name (lines 9-10) are reflected, in `Resolver.StoreDirNameScopedPeer`.
