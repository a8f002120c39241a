/** The CSS virtual-module registries of both plugin generations, as explicit states
    threaded through their transitions. src/plugin.ts keeps `cssCache`, from a
    component's path to its finished stylesheet text; src/index.ts keeps `cssMap`, from a
    fake `./<name>.css` id to the compiled CSS record. Both are consumed on first use. */
module Registry {
  import opened Wrappers
  import opened Messages
  import opened SourceMaps

  // ---------------------------------------------------------------------------
  // src/plugin.ts: cssCache

  type CssCache = map<string, string>

  /** Registering a value under a key, replacing any earlier one. */
  function Register<V>(cache: map<string, V>, key: string, value: V): (r: map<string, V>)
    ensures key in r && r[key] == value
    ensures forall k :: k != key ==> (k in r <==> k in cache)
    ensures forall k :: k != key && k in cache ==> r[k] == cache[k]
  {
    cache[key := value]
  }

  const CssNotFound: string := "CSS not found"

  /** What a style request answers: the stylesheet, or the errors of a miss. */
  datatype StyleAnswer = StyleContents(css: string) | StyleErrors(errors: seq<Message>)

  /** A style request for `path`: the entry is read and then deleted whatever it held;
      a missing entry and an empty one (`''` is falsy) are both `CSS not found`. */
  function LoadStyle(cache: CssCache, path: string): (r: (StyleAnswer, CssCache))
    ensures path !in r.1
    ensures forall k :: k != path ==> (k in r.1 <==> k in cache)
    ensures forall k :: k != path && k in cache ==> r.1[k] == cache[k]
    ensures r.0.StyleContents? <==> path in cache && cache[path] != ""
    ensures r.0.StyleContents? ==> r.0.css == cache[path]
    ensures r.0.StyleErrors? ==> r.0.errors == [TextOnly(CssNotFound)]
  {
    var rest := cache - {path};
    if path in cache && cache[path] != "" then (StyleContents(cache[path]), rest)
    else (StyleErrors([TextOnly(CssNotFound)]), rest)
  }

  /** The `onEnd` handler: `cssCache.clear()`. */
  function Clear<V>(cache: map<string, V>): (r: map<string, V>)
    ensures forall k :: k !in r
  {
    map[]
  }

  /** A stylesheet registered for a path is what the next style request for that path
      gets, and the request leaves the registry as it was before the registration. */
  lemma RegisterThenLoad(cache: CssCache, path: string, css: string)
    requires css != ""
    ensures LoadStyle(Register(cache, path, css), path).0 == StyleContents(css)
    ensures LoadStyle(Register(cache, path, css), path).1 == cache - {path}
  {
    var after := LoadStyle(Register(cache, path, css), path).1;
    assert after.Keys == (cache - {path}).Keys;
  }

  /** Consume-once: a second request for the same path is a miss. */
  lemma SecondLoadMisses(cache: CssCache, path: string)
    ensures LoadStyle(LoadStyle(cache, path).1, path).0 == StyleErrors([TextOnly(CssNotFound)])
  {
  }

  /** After the end of a build every style request is a miss. */
  lemma LoadAfterClear(cache: CssCache, path: string)
    ensures LoadStyle(Clear(cache), path).0 == StyleErrors([TextOnly(CssNotFound)])
  {
  }

  /** Registering or consuming one path does not change what another path's request
      gets. */
  lemma LoadIsolation(cache: CssCache, path: string, css: string, other: string)
    requires other != path
    ensures LoadStyle(Register(cache, path, css), other).0 == LoadStyle(cache, other).0
    ensures LoadStyle(LoadStyle(cache, path).1, other).0 == LoadStyle(cache, other).0
  {
  }

  // ---------------------------------------------------------------------------
  // src/index.ts: cssMap

  /** `{ ...css, source, path }`: the compiled CSS (code and map, either possibly
      absent), the component's text and the path esbuild is told the module has. */
  datatype CssEntry = CssEntry(code: Option<string>, sourcemap: Option<SourceMap>, source: string, path: string)

  type CssMap = map<string, CssEntry>

  /** The answer of `onResolve`: `{ path, pluginData }`. */
  datatype Resolved = Resolved(path: string, pluginData: CssEntry)

  /** `onResolve` for a `.css` import: a registered id is taken out of the map and
      resolved to its entry's path with the entry as plugin data; any other id gets no
      answer, so esbuild's own resolution goes on. */
  function ResolveCss(m: CssMap, id: string): (r: (Option<Resolved>, CssMap))
    ensures r.0.Some? <==> id in m
    ensures r.0.Some? ==> r.0.value.path == m[id].path && r.0.value.pluginData == m[id]
    ensures id !in r.1
    ensures forall k :: k != id ==> (k in r.1 <==> k in m)
    ensures forall k :: k != id && k in m ==> r.1[k] == m[k]
  {
    if id in m then (Some(Resolved(m[id].path, m[id])), m - {id}) else (None, m)
  }

  /** A miss changes nothing. */
  lemma ResolveMissFallsThrough(m: CssMap, id: string)
    requires id !in m
    ensures ResolveCss(m, id) == (None, m)
  {
  }

  /** A registered entry is handed out once: the id resolves to the entry, and then no
      more. */
  lemma ResolveOnce(m: CssMap, id: string, e: CssEntry)
    ensures ResolveCss(Register(m, id, e), id).0 == Some(Resolved(e.path, e))
    ensures ResolveCss(ResolveCss(Register(m, id, e), id).1, id).0 == None
  {
  }
}
