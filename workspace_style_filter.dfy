/**
 * `LayersWithoutWorkspaceStyle`: collects the default style
 * (`workspace:style`) of every layer of a store, then reports the layers whose
 * style does not belong to a given workspace, one per line of a text file.
 * The default style of each layer, which the class fetches over REST, is an
 * input, given in feature-type order.
 */
module WorkspaceStyleFilter {
  import opened Wrappers
  import opened PyStr
  import opened PyDict
  import GeoserverUrl

  /** The REST URL that lists the feature types of a store. */
  function FeaturetypesUrl(geoserverUrl: String, layersWorkspace: String, layersStore: String): String {
    GeoserverUrl.BaseUrl(geoserverUrl) + "/rest/workspaces/" + layersWorkspace
    + "/datastores/" + layersStore + "/featuretypes"
  }

  /** The REST URL of one layer, `layers_url_piece + layer`. */
  function LayerUrl(geoserverUrl: String, layersWorkspace: String, layer: String): String {
    GeoserverUrl.BaseUrl(geoserverUrl) + "/rest/layers/" + layersWorkspace + ":" + layer
  }

  /**
   * `retrieve_layers_with_style`: `layers_styles[layer] = name` for each
   * feature type in turn, `defaultStyles[i]` being the name GeoServer
   * returns for `featuretypes[i]`. A repeated feature type keeps its first
   * position and its last style.
   */
  method RetrieveLayersWithStyle(featuretypes: seq<String>, defaultStyles: seq<String>)
    returns (layersStyles: Dict<String, String>)
    requires |featuretypes| == |defaultStyles|
    ensures layersStyles == FromPairs(featuretypes, defaultStyles)
    ensures Keys(layersStyles) == Dedup(featuretypes)
    ensures forall layer :: Get(layersStyles, layer)
                            == if layer in featuretypes then Some(defaultStyles[LastIndex(featuretypes, layer)]) else None
  {
    layersStyles := [];
    for i := 0 to |featuretypes|
      invariant layersStyles == FromPairs(featuretypes[..i], defaultStyles[..i])
    {
      assert featuretypes[..i + 1][..i] == featuretypes[..i];
      assert defaultStyles[..i + 1][..i] == defaultStyles[..i];
      layersStyles := Set(layersStyles, featuretypes[i], defaultStyles[i]);
    }
    assert featuretypes[..|featuretypes|] == featuretypes;
    assert defaultStyles[..|defaultStyles|] == defaultStyles;
    FromPairsKeys(featuretypes, defaultStyles);
    forall layer ensures Get(layersStyles, layer) ==
      if layer in featuretypes then Some(defaultStyles[LastIndex(featuretypes, layer)]) else None
    {
      FromPairsGet(featuretypes, defaultStyles, layer);
    }
  }

  /**
   * The test of `find_layers`: the part before the first `:` differs from
   * the workspace, or the style name has no `:` at all.
   */
  predicate OutsideWorkspace(style: String, workspace: String) {
    var parts := Split(style, ':');
    parts[0] != workspace || |parts| == 1
  }

  /**
   * A style is inside the workspace exactly when it starts with
   * `workspace + ':'` and the workspace name itself has no `:`.
   */
  lemma OutsideWorkspaceIff(style: String, workspace: String)
    ensures !OutsideWorkspace(style, workspace) <==> ':' !in workspace && StartsWith(style, workspace + ":")
  {
    SplitFirst(style, ':');
    if ':' !in workspace && StartsWith(style, workspace + ":") {
      assert style[|workspace|] == ':';
      assert style[..|workspace|] == workspace;
      assert Find(style, ':') == |workspace|;
    }
  }

  /** A style name without a `:` is always reported, whatever the workspace. */
  lemma NoColonIsOutside(style: String, workspace: String)
    requires ':' !in style
    ensures OutsideWorkspace(style, workspace)
  {
    SplitFirst(style, ':');
  }

  /** Only the text up to the first `:` decides the test. */
  lemma OutsideWorkspaceIgnoresStyleName(ws: String, a: String, b: String, workspace: String)
    requires ':' !in ws
    ensures OutsideWorkspace(ws + ":" + a, workspace) == OutsideWorkspace(ws + ":" + b, workspace)
  {
    OutsideWorkspaceIff(ws + ":" + a, workspace);
    OutsideWorkspaceIff(ws + ":" + b, workspace);
    if ':' !in workspace {
      if StartsWith(ws + ":" + a, workspace + ":") || StartsWith(ws + ":" + b, workspace + ":") {
        assert (ws + ":" + a)[..|ws| + 1] == ws + ":";
        assert (ws + ":" + b)[..|ws| + 1] == ws + ":";
        PrefixWithoutSep(ws, workspace, a, b);
      }
    }
  }

  lemma PrefixWithoutSep(ws: String, workspace: String, a: String, b: String)
    requires ':' !in ws && ':' !in workspace
    requires StartsWith(ws + ":" + a, workspace + ":") || StartsWith(ws + ":" + b, workspace + ":")
    ensures ws == workspace
  {
    var x := if StartsWith(ws + ":" + a, workspace + ":") then ws + ":" + a else ws + ":" + b;
    var rest := x[|workspace| + 1..];
    assert x == workspace + ":" + rest;
    FirstColon(workspace, rest);
    FirstColon(ws, x[|ws| + 1..]);
    assert x == ws + ":" + x[|ws| + 1..];
    assert x[..|ws|] == ws;
  }

  /** In `p + ':' + rest` with no `:` in `p`, the first `:` is the one after `p`. */
  lemma FirstColon(p: String, rest: String)
    requires ':' !in p
    ensures Find(p + ":" + rest, ':') == |p|
  {
    var s := p + ":" + rest;
    var r := Find(s, ':');
    assert s[|p|] == ':';
    assert forall i :: 0 <= i < |p| ==> s[i] == p[i];
  }

  /** The layers `find_layers` reports, in dict order. */
  function LayersOutside(layersStyles: Dict<String, String>, workspace: String): seq<String> {
    if layersStyles == [] then []
    else
      var n := |layersStyles| - 1;
      LayersOutside(layersStyles[..n], workspace)
      + (if OutsideWorkspace(layersStyles[n].value, workspace) then [layersStyles[n].key] else [])
  }

  /** `find_layers`: walks the dict in order and keeps the layers whose style is outside the workspace. */
  method FindLayers(layersStyles: Dict<String, String>, workspace: String) returns (layersOutsideWorkspace: seq<String>)
    ensures layersOutsideWorkspace == LayersOutside(layersStyles, workspace)
  {
    layersOutsideWorkspace := [];
    for i := 0 to |layersStyles|
      invariant layersOutsideWorkspace == LayersOutside(layersStyles[..i], workspace)
    {
      assert layersStyles[..i + 1][..i] == layersStyles[..i];
      var layer, style := layersStyles[i].key, layersStyles[i].value;
      if OutsideWorkspace(style, workspace) {
        layersOutsideWorkspace := layersOutsideWorkspace + [layer];
      }
    }
    assert layersStyles[..|layersStyles|] == layersStyles;
  }

  /**
   * With distinct keys, a layer is reported exactly when it is in the dict
   * with a style outside the workspace, and no layer is reported twice.
   */
  lemma {:induction false} LayersOutsideSpec(layersStyles: Dict<String, String>, workspace: String)
    requires Distinct(Keys(layersStyles))
    ensures forall layer :: layer in LayersOutside(layersStyles, workspace) <==>
      Get(layersStyles, layer).Some? && OutsideWorkspace(Get(layersStyles, layer).value, workspace)
    ensures Distinct(LayersOutside(layersStyles, workspace))
  {
    if layersStyles != [] {
      var n := |layersStyles| - 1;
      var init, last := layersStyles[..n], layersStyles[n];
      DistinctInit(layersStyles);
      LayersOutsideSpec(init, workspace);
      var prev := LayersOutside(init, workspace);
      var extra := if OutsideWorkspace(last.value, workspace) then [last.key] else [];
      assert LayersOutside(layersStyles, workspace) == prev + extra;
      assert last.key !in prev;
      assert layersStyles == init + [last];
      forall layer ensures layer in prev + extra <==>
        Get(layersStyles, layer).Some? && OutsideWorkspace(Get(layersStyles, layer).value, workspace)
      {
        GetAppend(init, last, layer);
      }
      if extra != [] {
        DistinctSnoc(prev, last.key);
      } else {
        assert prev + extra == prev;
      }
    }
  }

  /** The text of the output file: each reported layer followed by a newline. */
  function Lines(layers: seq<String>): String {
    if layers == [] then [] else layers[0] + "\n" + Lines(layers[1..])
  }

  lemma {:induction false} LinesSnoc(layers: seq<String>, layer: String)
    ensures Lines(layers + [layer]) == Lines(layers) + layer + "\n"
  {
    if layers != [] {
      assert (layers + [layer])[1..] == layers[1..] + [layer];
      LinesSnoc(layers[1..], layer);
    }
  }

  /** The loop that writes `layer + '\n'` for each reported layer; `text` is the file content. */
  method WriteLayers(layers: seq<String>) returns (text: String)
    ensures text == Lines(layers)
  {
    text := [];
    for i := 0 to |layers|
      invariant text == Lines(layers[..i])
    {
      LinesSnoc(layers[..i], layers[i]);
      assert layers[..i + 1] == layers[..i] + [layers[i]];
      text := text + layers[i] + "\n";
    }
    assert layers[..|layers|] == layers;
  }

  /** Reading the file back line by line gives the reported layers, then an empty last piece. */
  lemma {:induction false} LinesSplit(layers: seq<String>)
    requires forall k :: 0 <= k < |layers| ==> '\n' !in layers[k]
    ensures Split(Lines(layers), '\n') == layers + [""]
  {
    if layers != [] {
      LinesSplit(layers[1..]);
      SplitCons(layers[0], '\n', Lines(layers[1..]));
      assert layers == [layers[0]] + layers[1..];
    }
  }

  /**
   * The whole run: a layer of the store is written to the file exactly when
   * its default style (its last one, if GeoServer listed it twice) is
   * outside the workspace, once.
   */
  method FindLayersWithoutWorkspaceStyle(featuretypes: seq<String>, defaultStyles: seq<String>, stylesWorkspace: String)
    returns (layersFound: seq<String>, text: String)
    requires |featuretypes| == |defaultStyles|
    ensures forall layer :: layer in layersFound <==>
      layer in featuretypes && OutsideWorkspace(defaultStyles[LastIndex(featuretypes, layer)], stylesWorkspace)
    ensures Distinct(layersFound)
    ensures text == Lines(layersFound)
  {
    var layersStyles := RetrieveLayersWithStyle(featuretypes, defaultStyles);
    layersFound := FindLayers(layersStyles, stylesWorkspace);
    DedupSpec(featuretypes);
    LayersOutsideSpec(layersStyles, stylesWorkspace);
    text := WriteLayers(layersFound);
  }
}
