/** The sourcemap metadata the adapter repairs before handing a map to esbuild: the
    `sourcesContent` array Svelte leaves empty, and the source name of a CSS map. */
module SourceMaps {
  import opened Wrappers
  import Paths

  /** The fields of a version 3 sourcemap the adapter reads or writes; `mappings`,
      `names` and `file` are carried through untouched. */
  datatype SourceMap = SourceMap(
    file: Option<string>,
    sources: seq<string>,
    sourcesContent: seq<Option<string>>,
    names: seq<string>,
    mappings: string)

  /** The loop of src/plugin.ts and src/index.ts that rebuilds `sourcesContent`, one
      entry pushed per source: the component's own text for the source named `base`
      (the component's basename), `null` for every other one. */
  method RepairContents(sources: seq<string>, base: string, source: string)
    returns (contents: seq<Option<string>>)
    ensures |contents| == |sources|
    ensures forall i :: 0 <= i < |sources| ==> (contents[i] == Some(source) <==> sources[i] == base)
    ensures forall i :: 0 <= i < |sources| ==> (contents[i] == None <==> sources[i] != base)
  {
    contents := [];
    for k := 0 to |sources|
      invariant |contents| == k
      invariant forall i :: 0 <= i < k ==> contents[i] == if sources[i] == base then Some(source) else None
    {
      if sources[k] == base {
        contents := contents + [Some(source)];
      } else {
        contents := contents + [None];
      }
    }
  }

  /** The map with its `sourcesContent` rebuilt, described entry by entry: the
      component's text exactly where the source is the component's basename, `null`
      everywhere else; every other field is kept. */
  function Repaired(m: SourceMap, filename: string, source: string): (r: SourceMap)
    ensures r.file == m.file && r.sources == m.sources && r.names == m.names && r.mappings == m.mappings
    ensures |r.sourcesContent| == |r.sources|
    ensures forall i :: 0 <= i < |r.sources| ==>
      (r.sourcesContent[i] == Some(source) <==> r.sources[i] == Paths.Basename(filename))
    ensures forall i :: 0 <= i < |r.sources| ==>
      (r.sourcesContent[i].None? <==> r.sources[i] != Paths.Basename(filename))
  {
    var base := Paths.Basename(filename);
    m.(sourcesContent := seq(|m.sources|, i requires 0 <= i < |m.sources| =>
                               if m.sources[i] == base then Some(source) else None))
  }

  /** The loop as both plugins write it builds exactly that map. */
  method Repair(m: SourceMap, filename: string, source: string) returns (r: SourceMap)
    ensures r == Repaired(m, filename, source)
  {
    var contents := RepairContents(m.sources, Paths.Basename(filename), source);
    r := m.(sourcesContent := contents);
    assert r.sourcesContent == Repaired(m, filename, source).sourcesContent;
  }

  /** `undefined + '?style.css'`: how JavaScript writes a missing first source. */
  const MissingSource: string := "undefined"

  /** The CSS map of src/index.ts: its first source gets the suffix `?style.css`, so it
      differs from the JavaScript map's, and `sourcesContent` becomes the component's
      text. With no sources at all, `sources[0] += …` creates the entry
      `"undefined?style.css"`. */
  function RewriteCssMap(m: SourceMap, source: string): (r: SourceMap)
    ensures |r.sources| == if |m.sources| == 0 then 1 else |m.sources|
    ensures |m.sources| > 0 ==> r.sources[0] == m.sources[0] + "?style.css"
    ensures |m.sources| == 0 ==> r.sources == ["undefined?style.css"]
    ensures forall i :: 1 <= i < |m.sources| ==> r.sources[i] == m.sources[i]
    ensures r.sourcesContent == [Some(source)]
    ensures r.file == m.file && r.names == m.names && r.mappings == m.mappings
  {
    var first := if |m.sources| > 0 then m.sources[0] else MissingSource;
    var rest := if |m.sources| > 0 then m.sources[1..] else [];
    assert MissingSource + "?style.css" == "undefined?style.css";
    m.(sources := [first + "?style.css"] + rest, sourcesContent := [Some(source)])
  }
}
