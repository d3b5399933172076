/**
 * The package resolver stage: a request under `/@modules/` names a bare
 * package; the path is rewritten to the package's ES-module entry file under
 * `node_modules`, through pnpm's content-addressed store when a lock file
 * was read at startup.
 */
module Resolver {
  import opened Wrappers
  import opened Strings

  /** The namespace the import rewriter sends bare specifiers to; its length is 10. */
  const ModulesPrefix := "/@modules/"

  datatype Failure =
    | NoStoreEntry(moduleName: string)       // no index entry matches: `find` gives undefined and `.slice` throws
    | ManifestUnreadable(packageDir: string) // package.json is missing or is not JSON

  /** The position of the first index entry that starts with `/` + `name`: `PNPM_PACKAGES.find`. */
  function FindEntry(index: seq<string>, name: string): (r: Option<nat>)
    ensures r.Some? ==> r.value < |index| && StartsWith(index[r.value], "/" + name)
    ensures r.Some? ==> forall k :: 0 <= k < r.value ==> !StartsWith(index[k], "/" + name)
    ensures r.None? ==> forall k :: 0 <= k < |index| ==> !StartsWith(index[k], "/" + name)
  {
    if index == [] then None
    else if StartsWith(index[0], "/" + name) then Some(0)
    else match FindEntry(index[1..], name)
      case None => None
      case Some(i) => Some(i + 1)
  }

  /**
   * pnpm's store directory for a lock-file key: drop the leading character,
   * every `/` becomes `+`, the first `(` becomes `_` and the first `)` is removed.
   */
  function StoreDirName(entry: string): string
  {
    var tail := if entry == [] then [] else entry[1..];
    ReplaceFirst(ReplaceFirst(MapChar(tail, '/', '+'), '(', "_"), ')', "")
  }

  /** The directory under `node_modules` that holds the package. */
  function PackageDir(name: string, index: Option<seq<string>>): Result<string, Failure>
  {
    match index
    case None => Ok(name)
    case Some(entries) =>
      match FindEntry(entries, name)
      case None => Err(NoStoreEntry(name))
      case Some(i) => Ok(".pnpm/" + StoreDirName(entries[i]) + "/node_modules/" + name)
  }

  /** What `${pkg.module}` renders: the field, or `undefined` when package.json has none. */
  function ModuleText(field: Option<string>): string
  {
    if field.Some? then field.value else "undefined"
  }

  /**
   * The path after the resolver stage. `manifests` maps a package directory
   * to the `module` field of its package.json; a directory that is not a key
   * has no readable manifest.
   */
  function Resolve(path: string, index: Option<seq<string>>, manifests: map<string, Option<string>>)
    : (r: Result<string, Failure>)
    ensures !StartsWith(path, ModulesPrefix) ==> r == Ok(path)
    ensures StartsWith(path, ModulesPrefix) && r.Ok? ==> StartsWith(r.value, "/node_modules/")
  {
    if !StartsWith(path, ModulesPrefix) then Ok(path)
    else
      var name := path[|ModulesPrefix|..];
      match PackageDir(name, index)
      case Err(e) => Err(e)
      case Ok(dir) =>
        if dir !in manifests then Err(ManifestUnreadable(dir))
        else Ok("/node_modules/" + dir + "/" + ModuleText(manifests[dir]))
  }

  lemma ReplaceFirstKeepsOut(s: string, c: char, r: string, d: char)
    requires d !in s && d !in r
    ensures d !in ReplaceFirst(s, c, r)
  {
    ReplaceFirstSpec(s, c, r);
    if c in s {
      var i := IndexOf(s, c).value;
      assert d !in s[..i] && d !in s[i + 1..];
    }
  }

  /** A store directory name is one path segment: it never contains `/`. */
  lemma StoreDirNameIsSegment(entry: string)
    ensures '/' !in StoreDirName(entry)
  {
    var tail := if entry == [] then [] else entry[1..];
    var m := MapChar(tail, '/', '+');
    assert '/' !in m by {
      forall i | 0 <= i < |m| ensures m[i] != '/' { }
    }
    ReplaceFirstKeepsOut(m, '(', "_", '/');
    ReplaceFirstKeepsOut(ReplaceFirst(m, '(', "_"), ')', "", '/');
  }

  /** A key without a peer suffix: only the leading `/` goes and `/` becomes `+`. */
  lemma StoreDirNamePlain(key: string)
    requires '(' !in key && ')' !in key
    ensures StoreDirName("/" + key) == MapChar(key, '/', '+')
  {
    assert ("/" + key)[1..] == key;
    var m := MapChar(key, '/', '+');
    MapCharKeepsOut(key, '/', '+', '(');
    MapCharKeepsOut(key, '/', '+', ')');
    ReplaceFirstSpec(m, '(', "_");
    ReplaceFirstSpec(m, ')', "");
  }

  /**
   * A key with a peer suffix `(peer)` followed by anything: the first `(`
   * becomes `_`, the `)` that closes it goes, and the rest only has `/` mapped.
   */
  lemma StoreDirNamePeerThen(key: string, peer: string, rest: string)
    requires '(' !in key && ')' !in key && ')' !in peer
    ensures StoreDirName("/" + key + "(" + peer + ")" + rest)
      == MapChar(key, '/', '+') + "_" + MapChar(peer, '/', '+') + MapChar(rest, '/', '+')
  {
    var mk, mp, mr := MapChar(key, '/', '+'), MapChar(peer, '/', '+'), MapChar(rest, '/', '+');
    PeerTail(key, peer, rest);
    MapPeerTail(key, peer, rest);
    MapCharKeepsOut(key, '/', '+', '(');
    MapCharKeepsOut(key, '/', '+', ')');
    MapCharKeepsOut(peer, '/', '+', ')');
    RewritePeer(mk, mp, mr);
  }

  /** The key after its leading `/`, grouped as the rewrite sees it. */
  lemma PeerTail(key: string, peer: string, rest: string)
    ensures ("/" + key + "(" + peer + ")" + rest)[1..] == key + ['('] + (peer + [')'] + rest)
  {
  }

  lemma MapPeerTail(key: string, peer: string, rest: string)
    ensures MapChar(key + ['('] + (peer + [')'] + rest), '/', '+')
      == MapChar(key, '/', '+') + ['('] + (MapChar(peer, '/', '+') + [')'] + MapChar(rest, '/', '+'))
  {
    MapCharConcat(key + ['('], peer + [')'] + rest, '/', '+');
    MapCharConcat(key, ['('], '/', '+');
    MapCharConcat(peer + [')'], rest, '/', '+');
    MapCharConcat(peer, [')'], '/', '+');
  }

  /** The first `(` sits after `mk` and the first `)` after the peer. */
  lemma RewritePeer(mk: string, mp: string, mr: string)
    requires '(' !in mk && ')' !in mk && ')' !in mp
    ensures ReplaceFirst(ReplaceFirst(mk + ['('] + (mp + [')'] + mr), '(', "_"), ')', "") == mk + "_" + mp + mr
  {
    ReplaceFirstAt(mk, mp + [')'] + mr, '(', "_");
    assert mk + "_" + (mp + [')'] + mr) == (mk + "_" + mp) + [')'] + mr;
    assert ')' !in mk + "_" + mp;
    ReplaceFirstAt(mk + "_" + mp, mr, ')', "");
    assert mk + "_" + mp + "" + mr == mk + "_" + mp + mr;
  }

  /** A key with one peer suffix `(peer)`: the parentheses become `_` and nothing. */
  lemma StoreDirNamePeer(key: string, peer: string)
    requires '(' !in key && ')' !in key && ')' !in peer
    ensures StoreDirName("/" + key + "(" + peer + ")") == MapChar(key, '/', '+') + "_" + MapChar(peer, '/', '+')
  {
    StoreDirNamePeerThen(key, peer, "");
    assert "/" + key + "(" + peer + ")" + "" == "/" + key + "(" + peer + ")";
  }

  /**
   * A scoped package with one peer, the shape of `/@vue/server-renderer@3.4.3(vue@3.4.3)`:
   * `/@scope/name@v(peer)` lives in `@scope+name@v_peer`.
   */
  lemma StoreDirNameScopedPeer(scope: string, name: string, peer: string)
    requires '/' !in scope && '(' !in scope && ')' !in scope
    requires '/' !in name && '(' !in name && ')' !in name
    requires '/' !in peer && ')' !in peer
    ensures StoreDirName("/" + (scope + "/" + name) + "(" + peer + ")") == scope + "+" + name + "_" + peer
  {
    var key := scope + "/" + name;
    ScopedKey(scope, name);
    StoreDirNamePeer(key, peer);
    MapCharAbsent(peer, '/', '+');
  }

  /** `@scope/name` has no parentheses and maps to `@scope+name`. */
  lemma ScopedKey(scope: string, name: string)
    requires '/' !in scope && '(' !in scope && ')' !in scope
    requires '/' !in name && '(' !in name && ')' !in name
    ensures '(' !in scope + "/" + name && ')' !in scope + "/" + name
    ensures MapChar(scope + "/" + name, '/', '+') == scope + "+" + name
  {
    var key := scope + "/" + name;
    assert key == scope + (['/'] + name);
    MapCharConcat(scope, ['/'] + name, '/', '+');
    MapCharConcat(['/'], name, '/', '+');
    MapCharAbsent(scope, '/', '+');
    MapCharAbsent(name, '/', '+');
  }

  /**
   * A key with two peer groups keeps the second group's parentheses: only the
   * first `(` and the first `)` are rewritten.
   */
  lemma StoreDirNameTwoPeers(key: string, peer1: string, peer2: string)
    requires '(' !in key && ')' !in key && ')' !in peer1
    ensures StoreDirName("/" + key + "(" + peer1 + ")" + ("(" + peer2 + ")"))
      == MapChar(key, '/', '+') + "_" + MapChar(peer1, '/', '+') + ("(" + MapChar(peer2, '/', '+') + ")")
  {
    StoreDirNamePeerThen(key, peer1, "(" + peer2 + ")");
    MapGroup(peer2);
  }

  /** Mapping `/` to `+` in a parenthesised group keeps the parentheses. */
  lemma MapGroup(peer: string)
    ensures MapChar("(" + peer + ")", '/', '+') == "(" + MapChar(peer, '/', '+') + ")"
  {
    MapCharConcat("(" + peer, ")", '/', '+');
    MapCharConcat("(", peer, '/', '+');
  }

  /** The match is a prefix test, not a package-name test: `vue` also selects `vue-router`. */
  lemma PrefixMatchNotSegment()
    ensures FindEntry(["/vue-router@4.2.5", "/vue@3.4.3"], "vue") == Some(0)
  {
    assert StartsWith("/vue-router@4.2.5", "/" + "vue");
  }

  /**
   * Without a store index, a request for `/@modules/<name>` whose manifest
   * holds `module` resolves to that entry directly under `node_modules`.
   */
  lemma ResolveFlatEntry(name: string, manifests: map<string, Option<string>>, field: string)
    requires name in manifests && manifests[name] == Some(field)
    ensures var r := Resolve(ModulesPrefix + name, None, manifests);
      r == Ok("/node_modules/" + name + ("/" + field)) && EndsWith(r.value, "/" + field)
  {
    var path := ModulesPrefix + name;
    assert path[10..] == name;
    StartsWithConcat(ModulesPrefix, name);
    assert "/node_modules/" + name + "/" + field == "/node_modules/" + name + ("/" + field);
    EndsWithConcat("/node_modules/" + name, "/" + field);
  }

  /**
   * With a store index the first matching entry fixes the store directory;
   * with none matching, resolution fails.
   */
  lemma ResolvePnpm(path: string, entries: seq<string>, manifests: map<string, Option<string>>)
    requires StartsWith(path, ModulesPrefix)
    ensures var name := path[10..];
      match FindEntry(entries, name)
      case None => Resolve(path, Some(entries), manifests) == Err(NoStoreEntry(name))
      case Some(i) =>
        var dir := ".pnpm/" + StoreDirName(entries[i]) + "/node_modules/" + name;
        Resolve(path, Some(entries), manifests) ==
          if dir in manifests then Ok("/node_modules/" + dir + "/" + ModuleText(manifests[dir]))
          else Err(ManifestUnreadable(dir))
  {
  }

  lemma FindUnique(entries: seq<string>, name: string, k: nat)
    requires k < |entries| && StartsWith(entries[k], "/" + name)
    requires forall j :: 0 <= j < |entries| && j != k ==> !StartsWith(entries[j], "/" + name)
    ensures FindEntry(entries, name) == Some(k)
  {
  }

  /**
   * When exactly one entry of the index starts with `/` + name, that entry is
   * the one used, and the resolved path ends with the package's `module` field.
   */
  lemma ResolveUniqueEntry(name: string, entries: seq<string>, k: nat, manifests: map<string, Option<string>>, field: string)
    requires k < |entries| && StartsWith(entries[k], "/" + name)
    requires forall j :: 0 <= j < |entries| && j != k ==> !StartsWith(entries[j], "/" + name)
    requires ".pnpm/" + StoreDirName(entries[k]) + "/node_modules/" + name in manifests
    requires manifests[".pnpm/" + StoreDirName(entries[k]) + "/node_modules/" + name] == Some(field)
    ensures var r := Resolve(ModulesPrefix + name, Some(entries), manifests);
      r == Ok("/node_modules/" + (".pnpm/" + StoreDirName(entries[k]) + "/node_modules/" + name) + ("/" + field))
      && EndsWith(r.value, "/" + field)
  {
    var path := ModulesPrefix + name;
    assert path[10..] == name;
    StartsWithConcat(ModulesPrefix, name);
    FindUnique(entries, name, k);
    ResolvePnpm(path, entries, manifests);
    var dir := ".pnpm/" + StoreDirName(entries[k]) + "/node_modules/" + name;
    assert "/node_modules/" + dir + "/" + field == "/node_modules/" + dir + ("/" + field);
    EndsWithConcat("/node_modules/" + dir, "/" + field);
  }
}
