/**
 * What the static responder needs besides the file system: the request path
 * it looks up, the ordered search roots, Node's `path.extname`, and Koa's
 * reading of `ctx.type` after an extension has been assigned to it.
 */
module Static {
  import opened Wrappers
  import opened Strings
  import opened Streams

  /**
   * A content type as `ctx.type` reads it back (Koa strips the charset):
   * `application/javascript`, `text/css`, an `image/...` type, or any other.
   */
  datatype ContentType = Js | Css | Image(mime: string) | Other(mime: string)

  function MimeOf(t: ContentType): string
  {
    match t
    case Js => "application/javascript"
    case Css => "text/css"
    case Image(m) => m
    case Other(m) => m
  }

  /** Files the server can read: the chunks the reader delivers for a (root, request path) pair. */
  type FileSystem = map<(string, string), seq<seq<byte>>>

  /** The search roots, in the order they are tried. */
  const Roots: seq<string> := [".", "public"]

  /** The file a request path names: `/` is `index.html`. */
  function UrlPath(path: string): string
  {
    if path == "/" then "index.html" else path
  }

  /** The position in `roots` of the first root that holds `url`. */
  function FirstRoot(files: FileSystem, roots: seq<string>, url: string): (r: Option<nat>)
    ensures r.Some? ==> r.value < |roots| && (roots[r.value], url) in files
    ensures r.Some? ==> forall k :: 0 <= k < r.value ==> (roots[k], url) !in files
    ensures r.None? ==> forall k :: 0 <= k < |roots| ==> (roots[k], url) !in files
  {
    if roots == [] then None
    else if (roots[0], url) in files then Some(0)
    else match FirstRoot(files, roots[1..], url)
      case None => None
      case Some(i) => Some(i + 1)
  }

  function TrimTrailingSlashes(p: string): (t: string)
    ensures |t| <= |p| && t == p[..|t|]
    ensures t == [] || t[|t| - 1] != '/'
    ensures forall i :: |t| <= i < |p| ==> p[i] == '/'
    decreases |p|
  {
    if |p| > 0 && p[|p| - 1] == '/' then TrimTrailingSlashes(p[..|p| - 1]) else p
  }

  /** The last path segment, trailing slashes ignored. */
  function Basename(p: string): string
  {
    var t := TrimTrailingSlashes(p);
    match LastIndexOf(t, '/')
    case None => t
    case Some(i) => t[i + 1..]
  }

  /**
   * Node's `path.extname`: from the last `.` of the last segment to its end,
   * or empty when the segment has no `.`, starts with its only `.`s, or is `..`.
   */
  function Extname(p: string): (e: string)
    ensures e == [] || (e[0] == '.' && '.' !in e[1..] && '/' !in e)
  {
    var b := Basename(p);
    match LastIndexOf(b, '.')
    case None => ""
    case Some(i) =>
      if i == 0 || b == ".." then ""
      else
        assert '/' !in b by { BasenameIsSegment(p); }
        b[i..]
  }

  lemma BasenameIsSegment(p: string)
    ensures '/' !in Basename(p)
  {
  }

  /** The last segment of a path that does not end in `/` and has no `/` from `k` on. */
  lemma BasenameFrom(p: string, k: nat) returns (start: nat)
    requires k <= |p| && p != [] && p[|p| - 1] != '/' && '/' !in p[k..]
    ensures start <= k && Basename(p) == p[start..]
    ensures start == 0 || p[start - 1] == '/'
  {
    var t := TrimTrailingSlashes(p);
    assert t == p;
    match LastIndexOf(p, '/')
    case None =>
      start := 0;
    case Some(j) =>
      start := j + 1;
  }

  lemma DotSuffix(p: string, ext: string)
    requires ext != [] && EndsWith(p, "." + ext)
    ensures p[|p| - |ext| - 1..] == "." + ext && p[|p| - |ext|..] == ext
    ensures p[|p| - 1] == ext[|ext| - 1]
  {
    assert p[|p| - |ext|..] == ("." + ext)[1..];
  }

  lemma EndsWithFrom(p: string, q: string, start: nat)
    requires EndsWith(p, q) && start <= |p| - |q|
    ensures EndsWith(p[start..], q)
  {
    assert p[start..][|p| - start - |q|..] == p[|p| - |q|..];
  }

  /** The last `.` of a text ending in `.` + `ext` is the one before `ext`. */
  lemma LastDotOfSuffix(b: string, ext: string)
    requires ext != [] && '.' !in ext && EndsWith(b, "." + ext)
    ensures LastIndexOf(b, '.') == Some(|b| - |ext| - 1) && b[|b| - 1] != '.'
    ensures b[|b| - |ext| - 1..] == "." + ext
  {
    var k := |b| - |ext| - 1;
    DotSuffix(b, ext);
    assert b[k] == b[k..][0];
    LastDotAt(b, k, ext);
    assert b[|b| - 1] in ext;
  }

  lemma LastDotAt(b: string, k: nat, ext: string)
    requires k < |b| && b[k] == '.' && b[k + 1..] == ext && '.' !in ext
    ensures LastIndexOf(b, '.') == Some(k)
  {
    LastIndexOfAt(b, '.', k);
  }

  /**
   * A path ending in `.` + `ext` has extension `.` + `ext`, unless that dot
   * opens its last segment (a dot-file such as `/.vue`), which has none.
   */
  lemma ExtnameOfSuffix(p: string, ext: string)
    requires ext != [] && '.' !in ext && '/' !in ext
    requires EndsWith(p, "." + ext)
    ensures var dot := |p| - |ext| - 1;
      Extname(p) == if dot == 0 || p[dot - 1] == '/' then "" else "." + ext
  {
    var dot := |p| - |ext| - 1;
    DotSuffix(p, ext);
    var start := BasenameFrom(p, dot);
    var b := p[start..];
    var i := dot - start;
    EndsWithFrom(p, "." + ext, start);
    ExtnameOfSegment(p, ext);
    if i != 0 {
      assert p[dot - 1] == b[i - 1];
      BasenameIsSegment(p);
    }
  }

  /** A last segment ending in `.` + `ext` gives that extension, unless it is the whole segment. */
  lemma ExtnameOfSegment(p: string, ext: string)
    requires ext != [] && '.' !in ext && EndsWith(Basename(p), "." + ext)
    ensures Extname(p) == if |Basename(p)| == |ext| + 1 then "" else "." + ext
  {
    var b := Basename(p);
    LastDotOfSuffix(b, ext);
    ExtnameAt(p, |b| - |ext| - 1);
  }

  /** With the last `.` of the last segment at `i`, the extension runs from there, or is empty at 0. */
  lemma ExtnameAt(p: string, i: nat)
    requires LastIndexOf(Basename(p), '.') == Some(i)
    requires Basename(p)[|Basename(p)| - 1] != '.'
    ensures Extname(p) == if i == 0 then "" else Basename(p)[i..]
  {
    var b := Basename(p);
    assert b != "..";
  }

  /**
   * The type given by an extension, for the extensions the program serves;
   * `None` for unknown ones. The lookup lower-cases the extension first.
   */
  function TypeOfExt(ext: string): Option<ContentType>
  {
    var ext := Lower(ext);
    if ext == ".js" || ext == ".mjs" then Some(Js)
    else if ext == ".css" then Some(Css)
    else if ext == ".png" then Some(Image("image/png"))
    else if ext == ".jpg" || ext == ".jpeg" then Some(Image("image/jpeg"))
    else if ext == ".gif" then Some(Image("image/gif"))
    else if ext == ".svg" then Some(Image("image/svg+xml"))
    else if ext == ".webp" then Some(Image("image/webp"))
    else if ext == ".ico" then Some(Image("image/vnd.microsoft.icon"))
    else if ext == ".html" || ext == ".htm" then Some(Other("text/html"))
    else if ext == ".json" then Some(Other("application/json"))
    else None
  }

  /**
   * `ctx.type` after `ctx.type = ext; ctx.body = stream`: an unknown
   * extension removes the header, and the stream assignment then sets it to
   * `application/octet-stream`.
   */
  function StreamType(ext: string): ContentType
  {
    match TypeOfExt(ext)
    case Some(t) => t
    case None => Other("application/octet-stream")
  }

  /** A `.vue` path has extension `.vue`, or none when the file is the dot-file `.vue`. */
  lemma VueExtname(p: string)
    requires EndsWith(p, ".vue")
    ensures Extname(p) == "" || Extname(p) == ".vue"
  {
    assert "." + "vue" == ".vue";
    ExtnameOfSuffix(p, "vue");
  }

  /** Neither the empty extension nor `.vue` is in the table. */
  lemma VueOrNoExtensionUnknown(e: string)
    requires e == "" || e == ".vue"
    ensures TypeOfExt(e) == None
    ensures StreamType(e) == Other("application/octet-stream")
  {
    if e == "" {
      assert TypeOfExt("") == None by { }
    } else {
      assert TypeOfExt(".vue") == None by { }
    }
  }

  /** A component file is served as opaque bytes: neither script, style nor image. */
  lemma VueFileType(p: string)
    requires EndsWith(p, ".vue")
    ensures TypeOfExt(Extname(p)) == None
    ensures StreamType(Extname(p)) == Other("application/octet-stream")
  {
    VueExtname(p);
    VueOrNoExtensionUnknown(Extname(p));
  }

  /** Only extensions of the table make a script: `.js` and `.mjs`, in any letter case. */
  lemma ScriptExtensions(ext: string)
    ensures StreamType(ext) == Js <==> Lower(ext) == ".js" || Lower(ext) == ".mjs"
  {
  }

  /** The lookup ignores letter case: upper-case extensions get the types of their lower-case forms. */
  lemma UpperCaseExtensions()
    ensures StreamType(".JS") == Js && StreamType(".MJS") == Js && StreamType(".CSS") == Css
    ensures StreamType(".JPG") == Image("image/jpeg") && StreamType(".PNG") == Image("image/png")
  {
    UpperJs();
    UpperMjs();
    UpperCss();
    UpperJpg();
    UpperPng();
  }

  lemma UpperJs()
    ensures StreamType(".JS") == Js
  {
    assert Lower(".JS") == ".js";
  }

  lemma UpperMjs()
    ensures StreamType(".MJS") == Js
  {
    assert Lower(".MJS") == ".mjs";
  }

  lemma UpperCss()
    ensures StreamType(".CSS") == Css
  {
    assert Lower(".CSS") == ".css";
  }

  lemma UpperJpg()
    ensures StreamType(".JPG") == Image("image/jpeg")
  {
    assert Lower(".JPG") == ".jpg";
  }

  lemma UpperPng()
    ensures StreamType(".PNG") == Image("image/png")
  {
    assert Lower(".PNG") == ".png";
  }
}
