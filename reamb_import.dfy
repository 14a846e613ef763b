/**
 * The import of a reambulated GeoPackage back into a PostGIS schema: the
 * guard on the schema name, the selection of the non-empty geometry layers,
 * the (switched-off) schema cleaning and the import loop that appends each
 * selected layer to the table of the same name. The GeoPackage catalogue,
 * the row counts and the validity of each source and target layer are
 * inputs; the append itself is an external algorithm and is modelled as the
 * request it receives.
 */
module ReambImport {
  import opened Wrappers
  import opened PyStr

  datatype ImportError = NotReambSchema | SourceNotValid(layer: String) | TargetNotValid(layer: String)

  /** The schema must contain the word `reamb`; anything else raises before the GeoPackage is opened. */
  function CheckSchema(schema: String): (r: Result<String, ImportError>)
    ensures r.Success? <==> IsSubstring("reamb", schema)
    ensures r.Success? ==> r.value == schema
    ensures r.Failure? ==> r.error == NotReambSchema
  {
    ContainsIsSubstring(schema, "reamb");
    if Contains(schema, "reamb") then Success(schema) else Failure(NotReambSchema)
  }

  /** The positions of the layers whose row count is positive, in increasing order. */
  function SelectedIndices(rowCounts: seq<int>): (idx: seq<nat>)
    ensures forall k :: 0 <= k < |idx| ==> idx[k] < |rowCounts| && rowCounts[idx[k]] > 0
    ensures forall j, k :: 0 <= j < k < |idx| ==> idx[j] < idx[k]
    ensures forall i :: 0 <= i < |rowCounts| && rowCounts[i] > 0 ==> i in idx
  {
    if rowCounts == [] then []
    else
      var n := |rowCounts| - 1;
      var init := SelectedIndices(rowCounts[..n]);
      if rowCounts[n] > 0 then init + [n] else init
  }

  /** `layers_import`: the layer names whose row count is positive, in catalogue order. */
  function NonEmptyLayers(layerNames: seq<String>, rowCounts: seq<int>): seq<String>
    requires |layerNames| == |rowCounts|
  {
    if layerNames == [] then []
    else
      var n := |layerNames| - 1;
      NonEmptyLayers(layerNames[..n], rowCounts[..n]) + (if rowCounts[n] > 0 then [layerNames[n]] else [])
  }

  /** The selection loop; `rowCounts[i]` is `SELECT COUNT(1)` of `layerNames[i]`. */
  method SelectLayersToImport(layerNames: seq<String>, rowCounts: seq<int>) returns (layersImport: seq<String>)
    requires |layerNames| == |rowCounts|
    ensures layersImport == NonEmptyLayers(layerNames, rowCounts)
  {
    layersImport := [];
    for i := 0 to |layerNames|
      invariant layersImport == NonEmptyLayers(layerNames[..i], rowCounts[..i])
    {
      assert layerNames[..i + 1][..i] == layerNames[..i];
      assert rowCounts[..i + 1][..i] == rowCounts[..i];
      if rowCounts[i] > 0 {
        layersImport := layersImport + [layerNames[i]];
      }
    }
    assert layerNames[..|layerNames|] == layerNames;
    assert rowCounts[..|rowCounts|] == rowCounts;
  }

  /**
   * The selection is exactly the layers at the positive positions, in
   * order: an order-preserving subsequence of the catalogue that leaves
   * out precisely the empty layers.
   */
  lemma {:induction false} NonEmptyLayersSpec(layerNames: seq<String>, rowCounts: seq<int>)
    requires |layerNames| == |rowCounts|
    ensures |NonEmptyLayers(layerNames, rowCounts)| == |SelectedIndices(rowCounts)|
    ensures forall k :: 0 <= k < |SelectedIndices(rowCounts)| ==>
      NonEmptyLayers(layerNames, rowCounts)[k] == layerNames[SelectedIndices(rowCounts)[k]]
  {
    if layerNames != [] {
      var n := |layerNames| - 1;
      var names, counts := layerNames[..n], rowCounts[..n];
      NonEmptyLayersSpec(names, counts);
      var idx, prev := SelectedIndices(counts), NonEmptyLayers(names, counts);
      var all := SelectedIndices(rowCounts);
      var r := NonEmptyLayers(layerNames, rowCounts);
      assert all == idx + (if rowCounts[n] > 0 then [n] else []);
      assert r == prev + (if rowCounts[n] > 0 then [layerNames[n]] else []);
      forall k | 0 <= k < |all| ensures r[k] == layerNames[all[k]] {
        if k < |idx| {
          assert r[k] == prev[k] && all[k] == idx[k];
          assert names[idx[k]] == layerNames[idx[k]];
        }
      }
    }
  }

  /** A layer name is selected exactly when some catalogue entry of that name has rows. */
  lemma NonEmptyLayersMembership(layerNames: seq<String>, rowCounts: seq<int>, layer: String)
    requires |layerNames| == |rowCounts|
    ensures layer in NonEmptyLayers(layerNames, rowCounts) <==>
      exists i :: 0 <= i < |layerNames| && layerNames[i] == layer && rowCounts[i] > 0
  {
    NonEmptyLayersSpec(layerNames, rowCounts);
    var idx := SelectedIndices(rowCounts);
    var r := NonEmptyLayers(layerNames, rowCounts);
    if layer in r {
      var k :| 0 <= k < |r| && r[k] == layer;
      assert layerNames[idx[k]] == layer && rowCounts[idx[k]] > 0;
    }
    if exists i :: 0 <= i < |layerNames| && layerNames[i] == layer && rowCounts[i] > 0 {
      var i :| 0 <= i < |layerNames| && layerNames[i] == layer && rowCounts[i] > 0;
      var k :| 0 <= k < |idx| && idx[k] == i;
      assert r[k] == layer;
    }
  }

  /** The target of an import: `setDataSource(schema, layer, 'geom')` on the connection's URI. */
  datatype DataSource = DataSource(schema: String, table: String, geometryColumn: String)

  /** One run of `appendfeaturestolayer`, `ACTION_ON_DUPLICATE` being 0. */
  datatype Append = Append(sourceUri: String, target: DataSource, actionOnDuplicate: int)

  /** `geopackage + '|layername=' + layer`. */
  function GeopackageUri(geopackage: String, layer: String): String {
    geopackage + "|layername=" + layer
  }

  /** The step of the import loop for one layer: the source is checked first, then the target. */
  function ImportStep(schema: String, geopackage: String, layer: String, sourceValid: bool, targetValid: bool)
    : (r: Result<Append, ImportError>)
    ensures r.Success? <==> sourceValid && targetValid
    ensures !sourceValid ==> r == Failure(SourceNotValid(layer))
    ensures r.Success? ==> r.value.target == DataSource(schema, layer, "geom")
  {
    if !sourceValid then Failure(SourceNotValid(layer))
    else if !targetValid then Failure(TargetNotValid(layer))
    else Success(Append(GeopackageUri(geopackage, layer), DataSource(schema, layer, "geom"), 0))
  }

  /**
   * The appends run by the first `n` layers, and the exception that stopped
   * the loop if any: appends already run stay run.
   */
  function ImportRun(schema: String, geopackage: String, layers: seq<String>,
                     sourceValid: String -> bool, targetValid: String -> bool, n: nat)
    : (Option<ImportError>, seq<Append>)
    requires n <= |layers|
  {
    if n == 0 then (None, [])
    else
      var (e, appends) := ImportRun(schema, geopackage, layers, sourceValid, targetValid, n - 1);
      if e.Some? then (e, appends)
      else
        var layer := layers[n - 1];
        match ImportStep(schema, geopackage, layer, sourceValid(layer), targetValid(layer))
        case Success(a) => (None, appends + [a])
        case Failure(err) => (Some(err), appends)
  }

  /**
   * The import loop. `sourceValid` and `targetValid` say which layers open
   * as valid QGIS layers; `appends` are the append runs in the order issued.
   */
  method ImportLayers(schema: String, geopackage: String, layersImport: seq<String>,
                      sourceValid: String -> bool, targetValid: String -> bool)
    returns (error: Option<ImportError>, appends: seq<Append>)
    ensures (error, appends) == ImportRun(schema, geopackage, layersImport, sourceValid, targetValid, |layersImport|)
  {
    appends := [];
    error := None;
    for i := 0 to |layersImport|
      invariant (None, appends) == ImportRun(schema, geopackage, layersImport, sourceValid, targetValid, i)
    {
      var layer := layersImport[i];
      var uriGeopackage := GeopackageUri(geopackage, layer);
      if !sourceValid(layer) {
        error := Some(SourceNotValid(layer));
        ImportRunStops(schema, geopackage, layersImport, sourceValid, targetValid, i + 1);
        return;
      }
      var uriTable := DataSource(schema, layer, "geom");
      if !targetValid(layer) {
        error := Some(TargetNotValid(layer));
        ImportRunStops(schema, geopackage, layersImport, sourceValid, targetValid, i + 1);
        return;
      }
      appends := appends + [Append(uriGeopackage, uriTable, 0)];
    }
  }

  /** Once a layer raises, the layers after it are not imported. */
  lemma {:induction false} ImportRunStops(schema: String, geopackage: String, layers: seq<String>,
                                          sourceValid: String -> bool, targetValid: String -> bool, m: nat)
    requires m <= |layers| && ImportRun(schema, geopackage, layers, sourceValid, targetValid, m).0.Some?
    ensures ImportRun(schema, geopackage, layers, sourceValid, targetValid, |layers|)
            == ImportRun(schema, geopackage, layers, sourceValid, targetValid, m)
    decreases |layers| - m
  {
    if m < |layers| {
      ImportRunStops(schema, geopackage, layers, sourceValid, targetValid, m + 1);
    }
  }

  /**
   * Without an exception, every layer is appended, in order, to the table
   * of the same name in the schema; with one, the layers before the first
   * invalid one were appended and the exception names that layer.
   */
  lemma {:induction false} ImportRunSpec(schema: String, geopackage: String, layers: seq<String>,
                                         sourceValid: String -> bool, targetValid: String -> bool, n: nat)
    requires n <= |layers|
    ensures ImportRun(schema, geopackage, layers, sourceValid, targetValid, n).0.None? <==>
      forall i :: 0 <= i < n ==> sourceValid(layers[i]) && targetValid(layers[i])
    ensures ImportRun(schema, geopackage, layers, sourceValid, targetValid, n).0.None? ==>
      |ImportRun(schema, geopackage, layers, sourceValid, targetValid, n).1| == n
    ensures var appends := ImportRun(schema, geopackage, layers, sourceValid, targetValid, n).1;
      |appends| <= n &&
      forall k :: 0 <= k < |appends| ==>
        appends[k] == Append(GeopackageUri(geopackage, layers[k]), DataSource(schema, layers[k], "geom"), 0)
    ensures ImportRun(schema, geopackage, layers, sourceValid, targetValid, n).0.Some? ==>
      var k := |ImportRun(schema, geopackage, layers, sourceValid, targetValid, n).1|;
      k < n && (forall i :: 0 <= i < k ==> sourceValid(layers[i]) && targetValid(layers[i])) &&
      ImportRun(schema, geopackage, layers, sourceValid, targetValid, n).0
        == Some(if !sourceValid(layers[k]) then SourceNotValid(layers[k]) else TargetNotValid(layers[k]))
  {
    if n > 0 {
      ImportRunSpec(schema, geopackage, layers, sourceValid, targetValid, n - 1);
    }
  }

  /** `cleanSchema` is fixed to False in the algorithm. */
  const CleanSchema := false

  /** The `DELETE` statements of the schema cleaning, one per base table, when it is switched on. */
  function CleanStatements(cleanSchema: bool, schema: String, schemaTables: seq<String>): (stmts: seq<String>)
    ensures |stmts| == if cleanSchema then |schemaTables| else 0
    ensures forall k :: 0 <= k < |stmts| ==> stmts[k] == "DELETE FROM " + schema + "." + schemaTables[k]
  {
    if cleanSchema then seq(|schemaTables|, k requires 0 <= k < |schemaTables| => "DELETE FROM " + schema + "." + schemaTables[k])
    else []
  }

  /**
   * The whole algorithm: the guard, the selection, the cleaning that never
   * runs, and the import loop over the selected layers.
   */
  method ReambulationImport(schema: String, geopackage: String, layerNames: seq<String>, rowCounts: seq<int>,
                            schemaTables: seq<String>, sourceValid: String -> bool, targetValid: String -> bool)
    returns (error: Option<ImportError>, deletes: seq<String>, appends: seq<Append>)
    requires |layerNames| == |rowCounts|
    ensures deletes == []
    ensures !IsSubstring("reamb", schema) ==> error == Some(NotReambSchema) && appends == []
    ensures IsSubstring("reamb", schema) ==>
      var layersImport := NonEmptyLayers(layerNames, rowCounts);
      (error, appends) == ImportRun(schema, geopackage, layersImport, sourceValid, targetValid, |layersImport|)
    ensures forall k :: 0 <= k < |appends| ==>
      appends[k].target.schema == schema && appends[k].target.geometryColumn == "geom" &&
      exists i :: 0 <= i < |layerNames| && layerNames[i] == appends[k].target.table && rowCounts[i] > 0
  {
    var checked := CheckSchema(schema);
    if checked.Failure? {
      error, deletes, appends := Some(checked.error), [], [];
      return;
    }
    var layersImport := SelectLayersToImport(layerNames, rowCounts);
    deletes := CleanStatements(CleanSchema, schema, schemaTables);
    error, appends := ImportLayers(schema, geopackage, layersImport, sourceValid, targetValid);
    ImportRunSpec(schema, geopackage, layersImport, sourceValid, targetValid, |layersImport|);
    forall k | 0 <= k < |appends|
      ensures exists i :: 0 <= i < |layerNames| && layerNames[i] == appends[k].target.table && rowCounts[i] > 0
    {
      assert appends[k].target.table == layersImport[k];
      NonEmptyLayersMembership(layerNames, rowCounts, layersImport[k]);
    }
  }
}
