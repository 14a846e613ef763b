/**
 * `save_project_vector_styles`: the style of every vector layer of the open
 * project is written twice, as QML and as SLD, into two folders, under the
 * layer's name in the Layers Panel. The project's layers are an input, in the
 * order `mapLayers().values()` yields them; the two save calls of a layer are
 * modelled as the record of the paths they write to.
 */
module ProjectStyles {
  import opened Wrappers
  import opened PyStr
  import opened PyDict
  import opened PosixPath

  /** `QgsMapLayer.type()`; only `VectorLayer` matters here. */
  datatype LayerType = VectorLayer | RasterLayer | PluginLayer | MeshLayer | VectorTileLayer

  /** A layer of the project: its id in `mapLayers()`, its display name and its type. */
  datatype MapLayer = MapLayer(id: String, name: String, layerType: LayerType)

  /** The vector layers among `layers`, in order. */
  function VectorLayers(layers: seq<MapLayer>): (vs: seq<MapLayer>)
    ensures |vs| <= |layers|
    ensures forall l :: l in vs <==> l in layers && l.layerType == VectorLayer
  {
    if layers == [] then []
    else
      var n := |layers| - 1;
      assert layers == layers[..n] + [layers[n]];
      VectorLayers(layers[..n]) + (if layers[n].layerType == VectorLayer then [layers[n]] else [])
  }

  /** The display names of `layers`, in order. */
  function Names(layers: seq<MapLayer>): (names: seq<String>)
    ensures |names| == |layers|
    ensures forall i :: 0 <= i < |layers| ==> names[i] == layers[i].name
  {
    seq(|layers|, i requires 0 <= i < |layers| => layers[i].name)
  }

  /** The distinct names of the project's vector layers. */
  ghost function VectorNames(layers: seq<MapLayer>): set<String> {
    set l | l in layers && l.layerType == VectorLayer :: l.name
  }

  /**
   * Reference definition of what the dict keeps under `name`: the last
   * vector layer of the project with that name, if any.
   */
  function LastVectorNamed(layers: seq<MapLayer>, name: String): (r: Option<MapLayer>)
    ensures r.Some? ==> r.value in layers && r.value.layerType == VectorLayer && r.value.name == name
    ensures r.None? <==> name !in VectorNames(layers)
  {
    if layers == [] then None
    else
      var n := |layers| - 1;
      assert layers == layers[..n] + [layers[n]];
      if layers[n].layerType == VectorLayer && layers[n].name == name then Some(layers[n])
      else LastVectorNamed(layers[..n], name)
  }

  /** The dict built from the vector layers of `layers`, keyed by name. */
  function Kept(layers: seq<MapLayer>): Dict<String, MapLayer> {
    FromPairs(Names(VectorLayers(layers)), VectorLayers(layers))
  }

  /** One more layer: a vector layer is set under its name, any other leaves the dict alone. */
  lemma KeptStep(layers: seq<MapLayer>, i: nat)
    requires i < |layers|
    ensures Kept(layers[..i + 1]) ==
      if layers[i].layerType == VectorLayer then Set(Kept(layers[..i]), layers[i].name, layers[i])
      else Kept(layers[..i])
  {
    var l := layers[i];
    assert layers[..i + 1][..i] == layers[..i];
    assert layers[..i + 1][i] == l;
    var vs := VectorLayers(layers[..i]);
    if l.layerType == VectorLayer {
      assert VectorLayers(layers[..i + 1]) == vs + [l];
      var names := Names(vs + [l]);
      assert names[..|vs|] == Names(vs);
      assert (vs + [l])[..|vs|] == vs;
    } else {
      assert VectorLayers(layers[..i + 1]) == vs;
    }
  }

  /** The dict the first loop builds holds, under each name, the last vector layer with that name. */
  lemma {:induction false} KeptIsLastVectorNamed(layers: seq<MapLayer>, name: String)
    ensures Get(Kept(layers), name) == LastVectorNamed(layers, name)
  {
    if layers != [] {
      var n := |layers| - 1;
      var init, l := layers[..n], layers[n];
      var prev := Kept(init);
      var isVector := l.layerType == VectorLayer;
      assert Get(prev, name) == LastVectorNamed(init, name) by {
        KeptIsLastVectorNamed(init, name);
      }
      assert Kept(layers) == if isVector then Set(prev, l.name, l) else prev by {
        KeptStep(layers, n);
        assert layers[..n + 1] == layers;
      }
      assert LastVectorNamed(layers, name) ==
        if isVector && l.name == name then Some(l) else LastVectorNamed(init, name);
      if isVector {
        if l.name == name {
          SetGetSame(prev, l.name, l);
        } else {
          SetGetOther(prev, l.name, l, name);
        }
      }
    }
  }

  /** The names of the vector layers, as a sequence, hold exactly the distinct vector-layer names. */
  lemma VectorNamesOfNames(layers: seq<MapLayer>)
    ensures (set x | x in Names(VectorLayers(layers))) == VectorNames(layers)
  {
    var vs := VectorLayers(layers);
    forall x | x in Names(vs) ensures x in VectorNames(layers) {
      var i :| 0 <= i < |vs| && Names(vs)[i] == x;
      assert vs[i] in vs;
    }
    forall x | x in VectorNames(layers) ensures x in Names(vs) {
      var l :| l in layers && l.layerType == VectorLayer && l.name == x;
      var i :| 0 <= i < |vs| && vs[i] == l;
      assert Names(vs)[i] == x;
    }
  }

  /**
   * The first loop: `layers_list[l.name()] = l` for each vector layer, so a
   * later layer with the same name replaces an earlier one in place.
   */
  method CollectVectorLayers(layers: seq<MapLayer>) returns (layersList: Dict<String, MapLayer>)
    ensures layersList == FromPairs(Names(VectorLayers(layers)), VectorLayers(layers))
    ensures Keys(layersList) == Dedup(Names(VectorLayers(layers)))
    ensures forall name :: Get(layersList, name) == LastVectorNamed(layers, name)
  {
    layersList := [];
    for i := 0 to |layers|
      invariant layersList == Kept(layers[..i])
    {
      var l := layers[i];
      KeptStep(layers, i);
      if l.layerType == VectorLayer {
        layersList := Set(layersList, l.name, l);
      }
    }
    assert layers[..|layers|] == layers;
    FromPairsKeys(Names(VectorLayers(layers)), VectorLayers(layers));
    forall name ensures Get(layersList, name) == LastVectorNamed(layers, name) {
      KeptIsLastVectorNamed(layers, name);
    }
  }

  /** `os.path.join(qml_folder, name + '.qml')`. */
  function QmlPath(qmlFolder: String, name: String): String {
    Join(qmlFolder, name + ".qml")
  }

  /** `os.path.join(sld_folder, name + '.sld')`. */
  function SldPath(sldFolder: String, name: String): String {
    Join(sldFolder, name + ".sld")
  }

  /** A plain layer name is the file name of both saved styles. */
  lemma StyleFileNames(qmlFolder: String, sldFolder: String, name: String)
    requires '/' !in name
    ensures Basename(QmlPath(qmlFolder, name)) == name + ".qml"
    ensures Basename(SldPath(sldFolder, name)) == name + ".sld"
  {
    BasenameJoin(qmlFolder, name + ".qml");
    BasenameJoin(sldFolder, name + ".sld");
  }

  /** `l.saveNamedStyle(qmlPath)` followed by `l.saveSldStyle(sldPath)`. */
  datatype StyleSave = StyleSave(layer: MapLayer, qmlPath: String, sldPath: String)

  /** The second loop: both styles of each kept layer, in dict order. */
  method SaveStyles(layersList: Dict<String, MapLayer>, qmlFolder: String, sldFolder: String)
    returns (saves: seq<StyleSave>)
    ensures |saves| == |layersList|
    ensures forall i :: 0 <= i < |saves| ==>
      saves[i] == StyleSave(layersList[i].value, QmlPath(qmlFolder, layersList[i].key), SldPath(sldFolder, layersList[i].key))
  {
    saves := [];
    for i := 0 to |layersList|
      invariant |saves| == i
      invariant forall k :: 0 <= k < i ==>
        saves[k] == StyleSave(layersList[k].value, QmlPath(qmlFolder, layersList[k].key), SldPath(sldFolder, layersList[k].key))
    {
      var name, l := layersList[i].key, layersList[i].value;
      var qmlPath := QmlPath(qmlFolder, name);
      var sldPath := SldPath(sldFolder, name);
      saves := saves + [StyleSave(l, qmlPath, sldPath)];
    }
  }

  /** The names under which the styles were saved, in order. */
  function SavedNames(saves: seq<StyleSave>): (names: seq<String>)
    ensures |names| == |saves|
    ensures forall i :: 0 <= i < |saves| ==> names[i] == saves[i].layer.name
  {
    seq(|saves|, i requires 0 <= i < |saves| => saves[i].layer.name)
  }

  /**
   * The whole function: one QML and one SLD per distinct vector-layer name,
   * in order of the name's first appearance, each written by the last vector
   * layer carrying that name, to `<folder>/<name>.qml` and `<folder>/<name>.sld`.
   */
  method SaveProjectVectorStyles(layers: seq<MapLayer>, qmlFolder: String, sldFolder: String)
    returns (saves: seq<StyleSave>)
    ensures |saves| == |VectorNames(layers)|
    ensures SavedNames(saves) == Dedup(Names(VectorLayers(layers)))
    ensures Distinct(SavedNames(saves))
    ensures forall name :: name in SavedNames(saves) <==> name in VectorNames(layers)
    ensures forall i :: 0 <= i < |saves| ==>
      Some(saves[i].layer) == LastVectorNamed(layers, saves[i].layer.name)
      && saves[i].qmlPath == QmlPath(qmlFolder, saves[i].layer.name)
      && saves[i].sldPath == SldPath(sldFolder, saves[i].layer.name)
  {
    var layersList := CollectVectorLayers(layers);
    saves := SaveStyles(layersList, qmlFolder, sldFolder);
    var names := Names(VectorLayers(layers));
    DedupSpec(names);
    DedupCardinality(names);
    VectorNamesOfNames(layers);
    forall i | 0 <= i < |saves|
      ensures saves[i].layer.name == layersList[i].key
      ensures Some(saves[i].layer) == LastVectorNamed(layers, layersList[i].key)
    {
      GetEntry(layersList, i);
    }
    assert SavedNames(saves) == Keys(layersList);
  }
}
