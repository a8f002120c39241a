/** The text the adapter emits around compiled code: sourcemap data URLs, the trailing
    sourcemap comments, the inspector import, and the ids and import lines of the CSS
    virtual modules. */
module Emit {
  import opened Wrappers
  import opened JsStrings
  import Paths
  import Json
  import Utf8
  import Base64
  import opened UrlQuery
  import opened SourceMaps
  import opened Svelte

  // ---------------------------------------------------------------------------
  // data URLs (src/index.ts)

  const DataUrlPrefix: string := "data:application/json;charset=utf-8;base64,"

  /** `toUrl(map)` of src/index.ts, given `map.toString()`: the prefix, then the base64
      of the UTF-8 bytes of the text. */
  function ToUrl(text: string): (r: string)
    ensures StartsWith(r, DataUrlPrefix)
    ensures forall i :: |DataUrlPrefix| <= i < |r| ==> Base64.IsBase64Char(r[i])
  {
    var payload := Base64.Encode(Utf8.Encode(text));
    var r := DataUrlPrefix + payload;
    assert r[..|DataUrlPrefix|] == DataUrlPrefix;
    assert forall i :: |DataUrlPrefix| <= i < |r| ==> r[i] == payload[i - |DataUrlPrefix|];
    r
  }

  /** What a reader of such a URL recovers: the text whose UTF-8 bytes the base64 part
      holds, or `None` for anything else. */
  function ReadDataUrl(u: string): Option<string> {
    if !StartsWith(u, DataUrlPrefix) then None
    else match Base64.Decode(u[|DataUrlPrefix|..])
      case Some(bytes) => Utf8.Decode(bytes)
      case None => None
  }

  /** The URL carries the map text unchanged. */
  lemma ReadToUrl(text: string)
    ensures ReadDataUrl(ToUrl(text)) == Some(text)
  {
    var u := ToUrl(text);
    assert u[|DataUrlPrefix|..] == Base64.Encode(Utf8.Encode(text));
    Base64.DecodeEncode(Utf8.Encode(text));
    Utf8.DecodeEncode(text);
  }

  lemma PrefixOneLine()
    ensures forall i :: 0 <= i < |DataUrlPrefix| ==> DataUrlPrefix[i] != '\n'
  {
  }

  /** A data URL is one line. */
  lemma ToUrlOneLine(text: string)
    ensures '\n' !in ToUrl(text)
  {
    var u := ToUrl(text);
    PrefixOneLine();
    forall i | 0 <= i < |u|
      ensures u[i] != '\n'
    {
      if i < |DataUrlPrefix| {
        assert u[i] == DataUrlPrefix[i];
      } else {
        assert Base64.IsBase64Char(u[i]);
      }
    }
  }

  /** The fixed map src/index.ts appends when sourcemaps are off: the base64 of
      `{"version":3,"sources":[""],"mappings":"A"}`. */
  const EmptySourceMap: string :=
    "data:application/json;base64,eyJ2ZXJzaW9uIjozLCJzb3VyY2VzIjpbIiJdLCJtYXBwaW5ncyI6IkEifQ=="

  // ---------------------------------------------------------------------------
  // sourcemap comments

  /** `//# …` after JavaScript, `/*# … */` after CSS. */
  datatype CommentStyle = LineComment | BlockComment

  function Opener(st: CommentStyle): string {
    if st == LineComment then "//# sourceMappingURL=" else "/*# sourceMappingURL="
  }

  function Closer(st: CommentStyle): string {
    if st == LineComment then "" else " */"
  }

  function MapComment(st: CommentStyle, url: string): string {
    Opener(st) + url + Closer(st)
  }

  /** The index of the last `\n` of `s`, or -1. */
  function LastNewline(s: string): (r: int)
    ensures -1 <= r < |s|
    ensures r >= 0 ==> s[r] == '\n'
    ensures forall j :: r < j < |s| ==> s[j] != '\n'
    decreases |s|
  {
    if |s| == 0 then -1
    else if s[|s| - 1] == '\n' then |s| - 1
    else LastNewline(s[..|s| - 1])
  }

  /** The text after the last `\n`. */
  function LastLine(s: string): string {
    s[LastNewline(s) + 1..]
  }

  function DropFinalNewline(s: string): string {
    if |s| > 0 && s[|s| - 1] == '\n' then s[..|s| - 1] else s
  }

  /** The URL of a comment line of the given style. */
  function UrlOfLine(st: CommentStyle, line: string): Option<string> {
    var o := Opener(st);
    var c := Closer(st);
    if |line| >= |o| + |c| && line[..|o|] == o && line[|line| - |c|..] == c
    then Some(line[|o|..|line| - |c|])
    else None
  }

  /** How esbuild finds a sourcemap comment: on the last line of the output, a final
      line break ignored. */
  function TrailingUrl(st: CommentStyle, s: string): Option<string> {
    UrlOfLine(st, LastLine(DropFinalNewline(s)))
  }

  lemma LastLineAfter(a: string, b: string)
    requires '\n' !in b
    ensures LastLine(a + "\n" + b) == b
  {
    var s := a + "\n" + b;
    var k := LastNewline(s);
    assert s[|a|] == '\n';
    assert forall j :: |a| < j < |s| ==> s[j] == b[j - |a| - 1];
    assert k == |a|;
    assert s[|a| + 1..] == b;
  }

  lemma CommentOneLine(st: CommentStyle, url: string)
    requires '\n' !in url
    ensures '\n' !in MapComment(st, url)
  {
    var o := Opener(st);
    var c := Closer(st);
    var line := MapComment(st, url);
    forall i | 0 <= i < |line|
      ensures line[i] != '\n'
    {
      if i < |o| {
        assert line[i] == o[i];
      } else if i < |o| + |url| {
        assert line[i] == url[i - |o|];
      } else {
        assert line[i] == c[i - |o| - |url|];
      }
    }
  }

  lemma UrlOfComment(st: CommentStyle, url: string)
    ensures UrlOfLine(st, MapComment(st, url)) == Some(url)
  {
    var o := Opener(st);
    var c := Closer(st);
    var line := MapComment(st, url);
    assert line[..|o|] == o;
    assert line[|line| - |c|..] == c;
    assert line[|o|..|line| - |c|] == url;
  }

  /** Whatever precedes it, a comment written on its own last line yields its URL. */
  lemma TrailingUrlOf(st: CommentStyle, before: string, url: string, finalBreak: bool)
    requires '\n' !in url
    ensures TrailingUrl(st, before + "\n" + MapComment(st, url) + (if finalBreak then "\n" else "")) == Some(url)
  {
    var line := MapComment(st, url);
    CommentOneLine(st, url);
    var s := before + "\n" + line;
    assert |line| > 0 by {
      assert |Opener(st)| > 0;
    }
    if finalBreak {
      assert DropFinalNewline(s + "\n") == s;
    } else {
      assert s + "" == s;
      assert s[|s| - 1] == line[|line| - 1];
    }
    LastLineAfter(before, line);
    UrlOfComment(st, url);
  }

  /** A data-URL comment appended on its own line reads back as the text it encodes. */
  lemma TrailingDataUrl(st: CommentStyle, before: string, text: string)
    ensures TrailingUrl(st, before + "\n" + MapComment(st, ToUrl(text))).Some?
    ensures ReadDataUrl(TrailingUrl(st, before + "\n" + MapComment(st, ToUrl(text))).value) == Some(text)
  {
    var s := before + "\n" + MapComment(st, ToUrl(text));
    ToUrlOneLine(text);
    TrailingUrlOf(st, before, ToUrl(text), false);
    assert s + "" == s;
    ReadToUrl(text);
  }

  // ---------------------------------------------------------------------------
  // src/plugin.ts: makeCode and makeStyle

  const InspectorImport: string := "\nimport('virtual:svelte-inspector-path:load-inspector.js')"

  /** `makeCode(js, injectInspector)`; `toUrl` is Svelte's `map.toUrl()`. */
  function MakeCode(js: Option<Output>, injectInspector: bool, toUrl: SourceMap -> string): (r: string)
    ensures js.None? ==> r == ""
    ensures js.Some? ==>
      && StartsWith(r, js.value.code)
      && r[|js.value.code|..] ==
           (if injectInspector then InspectorImport else "") + "\n" + MapComment(LineComment, toUrl(js.value.sourcemap)) + "\n"
  {
    if js.None? then ""
    else
      var injected := if injectInspector then InspectorImport else "";
      var r := js.value.code + (injected + "\n" + MapComment(LineComment, toUrl(js.value.sourcemap)) + "\n");
      assert r[..|js.value.code|] == js.value.code;
      r
  }

  /** `makeStyle(css)`. */
  function MakeStyle(css: Option<Output>, toUrl: SourceMap -> string): (r: string)
    ensures css.None? ==> r == ""
    ensures css.Some? ==>
      && StartsWith(r, css.value.code)
      && r[|css.value.code|..] == "\n" + MapComment(BlockComment, toUrl(css.value.sourcemap)) + "\n"
  {
    if css.None? then ""
    else
      var r := css.value.code + ("\n" + MapComment(BlockComment, toUrl(css.value.sourcemap)) + "\n");
      assert r[..|css.value.code|] == css.value.code;
      r
  }

  /** The JavaScript `makeCode` returns starts with the compiled code and ends with a
      comment that esbuild reads back as the map's URL, inspector import or not. */
  lemma MakeCodeUrl(js: Output, injectInspector: bool, toUrl: SourceMap -> string)
    requires '\n' !in toUrl(js.sourcemap)
    ensures StartsWith(MakeCode(Some(js), injectInspector, toUrl), js.code)
    ensures TrailingUrl(LineComment, MakeCode(Some(js), injectInspector, toUrl)) == Some(toUrl(js.sourcemap))
  {
    var injected := if injectInspector then InspectorImport else "";
    var url := toUrl(js.sourcemap);
    var r := MakeCode(Some(js), injectInspector, toUrl);
    assert TrailingUrl(LineComment, r) == Some(url) by {
      var tail := "\n" + MapComment(LineComment, url) + "\n";
      ConcatAssoc(js.code, injected, tail);
      assert r == (js.code + injected) + "\n" + MapComment(LineComment, url) + "\n";
      TrailingUrlOf(LineComment, js.code + injected, url, true);
    }
  }

  /** Concatenation regroups. */
  lemma ConcatAssoc(a: string, b: string, c: string)
    ensures a + (b + c) == (a + b) + c
  {
  }

  /** Likewise for `makeStyle`. */
  lemma MakeStyleUrl(css: Output, toUrl: SourceMap -> string)
    requires '\n' !in toUrl(css.sourcemap)
    ensures StartsWith(MakeStyle(Some(css), toUrl), css.code)
    ensures TrailingUrl(BlockComment, MakeStyle(Some(css), toUrl)) == Some(toUrl(css.sourcemap))
  {
    var r := MakeStyle(Some(css), toUrl);
    assert r == css.code + "\n" + MapComment(BlockComment, toUrl(css.sourcemap)) + "\n";
    TrailingUrlOf(BlockComment, css.code, toUrl(css.sourcemap), true);
  }

  // ---------------------------------------------------------------------------
  // src/plugin.ts: CSS ids

  /** The import's query with `svelte` and `lang.css` set empty and `type` set to `style`. */
  function StyleQuery(q: Query): Query {
    Set(Set(Set(q, "svelte", ""), "type", "style"), "lang.css", "")
  }

  /** The condition in the `onLoad` handler: the query has a `svelte` parameter and its first `type` is `style`. */
  predicate IsStyleRequest(q: Query)
    ensures IsStyleRequest(q) ==> exists i :: 0 <= i < |q| && q[i].name == "svelte"
    ensures IsStyleRequest(q) ==> exists i :: 0 <= i < |q| && q[i] == Param("type", "style")
  {
    Has(q, "svelte") && Get(q, "type") == Some("style")
  }

  /** The query text of a CSS id: the serialization with each `=` before `&` or the end
      removed. */
  function CssIdQuery(suffix: string): string {
    StripEmptyEq(Serialize(StyleQuery(Parse(suffix))))
  }

  /** `makeCssId(args)`. */
  function MakeCssId(path: string, suffix: string): string {
    "./" + Paths.Basename(path) + "?" + CssIdQuery(suffix)
  }

  /** The style query holds the three markers, and every other name keeps the value it
      had in the suffix. */
  lemma StyleQueryGet(q: Query, name: string)
    ensures Get(StyleQuery(q), "svelte") == Some("")
    ensures Get(StyleQuery(q), "type") == Some("style")
    ensures Get(StyleQuery(q), "lang.css") == Some("")
    ensures name != "svelte" && name != "type" && name != "lang.css" ==>
      Get(StyleQuery(q), name) == Get(q, name)
  {
    var q1 := Set(q, "svelte", "");
    var q2 := Set(q1, "type", "style");
    GetSetSame(q, "svelte", "");
    GetSetOther(q1, "type", "style", "svelte");
    GetSetOther(q2, "lang.css", "", "svelte");
    GetSetSame(q1, "type", "style");
    GetSetOther(q2, "lang.css", "", "type");
    GetSetSame(q2, "lang.css", "");
    if name != "svelte" && name != "type" && name != "lang.css" {
      GetSetOther(q, "svelte", "", name);
      GetSetOther(q1, "type", "style", name);
      GetSetOther(q2, "lang.css", "", name);
    }
  }

  /** The id's query is the compact serialization: a pair with an empty value is its
      bare name. */
  lemma CssIdQueryCompact(suffix: string)
    ensures CssIdQuery(suffix) == SerializeCompact(StyleQuery(Parse(suffix)))
  {
    StripSerialize(StyleQuery(Parse(suffix)));
  }

  lemma {:induction false} RemoveKeeps(q: Query, name: string)
    requires IsSafeQuery(q) && NamesNonEmpty(q)
    ensures IsSafeQuery(Remove(q, name)) && NamesNonEmpty(Remove(q, name))
    decreases |q|
  {
    if |q| > 0 {
      RemoveKeeps(q[1..], name);
      var r := Remove(q, name);
      if q[0].name != name {
        assert r == [q[0]] + Remove(q[1..], name);
        assert forall i :: 1 <= i < |r| ==> r[i] == Remove(q[1..], name)[i - 1];
      }
    }
  }

  lemma {:induction false} SetKeeps(q: Query, name: string, value: string)
    requires IsSafeQuery(q) && NamesNonEmpty(q)
    requires IsSafeText(name) && IsSafeText(value) && name != ""
    ensures IsSafeQuery(Set(q, name, value)) && NamesNonEmpty(Set(q, name, value))
    decreases |q|
  {
    if |q| > 0 {
      var r := Set(q, name, value);
      if q[0].name == name {
        RemoveKeeps(q[1..], name);
        assert forall i :: 1 <= i < |r| ==> r[i] == Remove(q[1..], name)[i - 1];
      } else {
        SetKeeps(q[1..], name, value);
        assert forall i :: 1 <= i < |r| ==> r[i] == Set(q[1..], name, value)[i - 1];
      }
    }
  }

  /** A CSS id points back at a style request: for a suffix of safe names and values,
      the query the id carries meets the style condition of the `onLoad` handler. */
  lemma CssIdIsStyleRequest(suffix: string)
    requires IsSafeQuery(Parse(suffix)) && NamesNonEmpty(Parse(suffix))
    ensures IsStyleRequest(Parse("?" + CssIdQuery(suffix)))
  {
    var q := Parse(suffix);
    assert IsSafeText("svelte") && IsSafeText("type") && IsSafeText("style") && IsSafeText("lang.css");
    SetKeeps(q, "svelte", "");
    SetKeeps(Set(q, "svelte", ""), "type", "style");
    SetKeeps(Set(Set(q, "svelte", ""), "type", "style"), "lang.css", "");
    CssIdQueryCompact(suffix);
    ParseSerializeCompact(StyleQuery(q));
    StyleQueryGet(q, "");
  }

  // ---------------------------------------------------------------------------
  // CSS imports

  /** The line src/plugin.ts appends to the JavaScript: `\nimport "<id>";\n`. */
  function CssImport(id: string): (r: string)
    ensures |r| > 10 && r[0] == '\n' && r[|r| - 1] == '\n'
  {
    "\nimport " + Json.Quote(id) + ";\n"
  }

  /** `./<basename>.css`, the id src/index.ts registers a component's CSS under. */
  function LegacyFakePath(filename: string): (r: string)
    ensures StartsWith(r, "./")
  {
    var r := "./" + Paths.Basename(filename) + ".css";
    assert r[..2] == "./";
    r
  }

  /** The line src/index.ts appends: `\nimport "<fakePath>";`, without a final break. */
  function LegacyCssImport(fakePath: string): (r: string)
    ensures |r| > 9 && r[..8] == "\nimport " && r[|r| - 1] == ';'
    ensures Json.Unquote(r[8..|r| - 1]) == Some(fakePath)
  {
    var r := "\nimport " + Json.Quote(fakePath) + ";";
    assert r[8..|r| - 1] == Json.Quote(fakePath);
    Json.UnquoteQuote(fakePath);
    r
  }

  /** The import line names the id exactly: the quoted specifier reads back as the id. */
  lemma CssImportNamesId(id: string)
    ensures var line := CssImport(id);
      && line[..8] == "\nimport "
      && line[|line| - 2..] == ";\n"
      && Json.Unquote(line[8..|line| - 2]) == Some(id)
  {
    var line := CssImport(id);
    assert line[8..|line| - 2] == Json.Quote(id);
    Json.UnquoteQuote(id);
  }
}
