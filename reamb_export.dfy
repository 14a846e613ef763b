/**
 * The export of a PostGIS schema to a GeoPackage for reambulation: the clip
 * shapefile guard, the dictionary of ARRAY columns per table, and the rewrite
 * of every exported array value from OGR's `(n:a,b,c)` text to PostgreSQL's
 * `{a,b,c}` literal, feature by feature, inside the GeoPackage.
 * The ogr2ogr run, the catalogue queries and the layer contents are inputs.
 */
module ReambExport {
  import opened Wrappers
  import opened PyStr
  import opened PyDict

  datatype ExportError = InvalidShape | InvalidSource(table: String) | KeyError(column: String)

  /**
   * The clip guard: an empty path means no clip; a non-empty path must open
   * as a valid layer, otherwise the export raises before ogr2ogr runs.
   */
  function ShapeGuard(shape: String, shapeIsValid: bool): (r: Result<bool, ExportError>)
    ensures r.Success? <==> shapeIsValid || shape == []
    ensures r.Success? ==> (r.value <==> shape != [])
  {
    if shapeIsValid || shape == "" then Success(shape != "") else Failure(InvalidShape)
  }

  /**
   * The loop that builds `dict_table_arrcolumns`: `arrColumns[i]` lists the
   * ARRAY columns of `tables[i]`, and only tables that have some get an entry.
   */
  function ArrayColumnDict(tables: seq<String>, arrColumns: seq<seq<String>>): Dict<String, seq<String>>
    requires |tables| == |arrColumns|
  {
    if tables == [] then []
    else
      var n := |tables| - 1;
      var d := ArrayColumnDict(tables[..n], arrColumns[..n]);
      if arrColumns[n] != [] then Set(d, tables[n], arrColumns[n]) else d
  }

  method BuildArrayColumnDict(tables: seq<String>, arrColumns: seq<seq<String>>)
    returns (dictTableArrcolumns: Dict<String, seq<String>>)
    requires |tables| == |arrColumns|
    ensures dictTableArrcolumns == ArrayColumnDict(tables, arrColumns)
  {
    dictTableArrcolumns := [];
    for i := 0 to |tables|
      invariant dictTableArrcolumns == ArrayColumnDict(tables[..i], arrColumns[..i])
    {
      assert tables[..i + 1][..i] == tables[..i];
      assert arrColumns[..i + 1][..i] == arrColumns[..i];
      var tableArrcolumns := arrColumns[i];
      if tableArrcolumns != [] {
        dictTableArrcolumns := Set(dictTableArrcolumns, tables[i], tableArrcolumns);
      }
    }
    assert tables[..|tables|] == tables;
    assert arrColumns[..|arrColumns|] == arrColumns;
  }

  /** Every table has at most one entry, and every entry lists some ARRAY column. */
  lemma {:induction false} ArrayColumnDictEntries(tables: seq<String>, arrColumns: seq<seq<String>>)
    requires |tables| == |arrColumns|
    ensures Distinct(Keys(ArrayColumnDict(tables, arrColumns)))
    ensures forall t :: Get(ArrayColumnDict(tables, arrColumns), t).Some? ==>
      Get(ArrayColumnDict(tables, arrColumns), t).value != []
  {
    if tables != [] {
      var n := |tables| - 1;
      var d := ArrayColumnDict(tables[..n], arrColumns[..n]);
      ArrayColumnDictEntries(tables[..n], arrColumns[..n]);
      if arrColumns[n] != [] {
        SetDistinct(d, tables[n], arrColumns[n]);
        SetGetSame(d, tables[n], arrColumns[n]);
        forall t | t != tables[n] ensures Get(Set(d, tables[n], arrColumns[n]), t) == Get(d, t) {
          SetGetOther(d, tables[n], arrColumns[n], t);
        }
      }
    }
  }

  /**
   * The entry of a table holds the ARRAY-column list of its last listing
   * that has some: `dict_table_arrcolumns[table] = table_arrcolumns`
   * overwrites the value of an earlier listing of the same table.
   */
  lemma {:induction false} ArrayColumnDictValue(tables: seq<String>, arrColumns: seq<seq<String>>, i: nat)
    requires |tables| == |arrColumns| && i < |tables| && arrColumns[i] != []
    requires forall j :: i < j < |tables| && tables[j] == tables[i] ==> arrColumns[j] == []
    ensures Get(ArrayColumnDict(tables, arrColumns), tables[i]) == Some(arrColumns[i])
  {
    var n := |tables| - 1;
    var d := ArrayColumnDict(tables[..n], arrColumns[..n]);
    if i == n {
      SetGetSame(d, tables[n], arrColumns[n]);
    } else {
      assert tables[..n][i] == tables[i] && arrColumns[..n][i] == arrColumns[i];
      forall j | i < j < n && tables[..n][j] == tables[..n][i] ensures arrColumns[..n][j] == [] {
        assert tables[..n][j] == tables[j] && arrColumns[..n][j] == arrColumns[j];
      }
      ArrayColumnDictValue(tables[..n], arrColumns[..n], i);
      if arrColumns[n] != [] {
        SetGetOther(d, tables[n], arrColumns[n], tables[i]);
      }
    }
  }

  /** A table has an entry exactly when some listing of it has ARRAY columns. */
  lemma {:induction false} ArrayColumnDictKeys(tables: seq<String>, arrColumns: seq<seq<String>>, t: String)
    requires |tables| == |arrColumns|
    ensures t in Keys(ArrayColumnDict(tables, arrColumns)) <==>
      exists i :: 0 <= i < |tables| && tables[i] == t && arrColumns[i] != []
  {
    if tables != [] {
      var n := |tables| - 1;
      ArrayColumnDictStep(tables, arrColumns, t);
      assert t in Keys(ArrayColumnDict(tables[..n], arrColumns[..n])) <==>
        exists i :: 0 <= i < n && tables[i] == t && arrColumns[i] != [] by {
        ArrayColumnDictKeys(tables[..n], arrColumns[..n], t);
        assert forall i :: 0 <= i < n ==> tables[..n][i] == tables[i] && arrColumns[..n][i] == arrColumns[i];
      }
      ListedSnoc(tables, arrColumns, t);
    }
  }

  /** Some listing of `t` has ARRAY columns: one of the earlier listings, or the last one. */
  lemma ListedSnoc(tables: seq<String>, arrColumns: seq<seq<String>>, t: String)
    requires |tables| == |arrColumns| && tables != []
    ensures (exists i :: 0 <= i < |tables| && tables[i] == t && arrColumns[i] != []) <==>
      (exists i :: 0 <= i < |tables| - 1 && tables[i] == t && arrColumns[i] != [])
      || (tables[|tables| - 1] == t && arrColumns[|tables| - 1] != [])
  {
    var n := |tables| - 1;
    if exists i :: 0 <= i < |tables| && tables[i] == t && arrColumns[i] != [] {
      var i :| 0 <= i < |tables| && tables[i] == t && arrColumns[i] != [];
      if i < n {
        assert exists j :: 0 <= j < n && tables[j] == t && arrColumns[j] != [];
      }
    }
  }

  /** One more table: it gains an entry exactly when its ARRAY-column list is non-empty. */
  lemma ArrayColumnDictStep(tables: seq<String>, arrColumns: seq<seq<String>>, t: String)
    requires |tables| == |arrColumns| && tables != []
    ensures t in Keys(ArrayColumnDict(tables, arrColumns)) <==>
      t in Keys(ArrayColumnDict(tables[..|tables| - 1], arrColumns[..|tables| - 1]))
      || (arrColumns[|tables| - 1] != [] && t == tables[|tables| - 1])
  {
    var n := |tables| - 1;
    var d := ArrayColumnDict(tables[..n], arrColumns[..n]);
    if arrColumns[n] != [] {
      var d' := Set(d, tables[n], arrColumns[n]);
      assert ArrayColumnDict(tables, arrColumns) == d';
      assert Keys(d') == if tables[n] in Keys(d) then Keys(d) else Keys(d) + [tables[n]];
    } else {
      assert ArrayColumnDict(tables, arrColumns) == d;
    }
  }

  /** `'{' + v.replace(')', '}')[3:]`: the rewrite of one array value. */
  function ArrayLiteral(v: String): String {
    "{" + SliceFrom(Replace(v, ")", "}"), 3)
  }

  /** The rewrite maps `)` to `}` in place and replaces the first three characters by `{`. */
  lemma ArrayLiteralSpec(v: String)
    ensures |v| >= 3 ==> ArrayLiteral(v) == "{" + MapChar(v, ')', '}')[3..]
    ensures |v| < 3 ==> ArrayLiteral(v) == "{"
    ensures |ArrayLiteral(v)| == if |v| >= 3 then |v| - 2 else 1
  {
    ReplaceOneChar(v, ')', '}');
  }

  /**
   * A value exported as `(d:items)` with a one-digit count becomes
   * `{items'}`, where `items'` has each `)` turned into `}`.
   */
  lemma ArrayLiteralOneDigitCount(d: char, items: String)
    requires d != ')'
    ensures ArrayLiteral("(" + [d] + ":" + items + ")") == "{" + MapChar(items, ')', '}') + "}"
  {
    var v := "(" + [d] + ":" + items + ")";
    ArrayLiteralSpec(v);
    var m := MapChar(v, ')', '}');
    assert m[3..] == MapChar(items, ')', '}') + "}";
  }

  /** The `(3:a,b,c)` text OGR writes for a three-element array becomes `{a,b,c}`. */
  lemma ArrayLiteralExample()
    ensures ArrayLiteral("(3:a,b,c)") == "{a,b,c}"
  {
    ArrayLiteralOneDigitCount('3', "a,b,c");
    assert "(" + ['3'] + ":" + "a,b,c" + ")" == "(3:a,b,c)";
    assert MapChar("a,b,c", ')', '}') == "a,b,c";
  }

  /** With a two-digit count the fixed three-character cut keeps the `:`: `(10:…)` becomes `{:…}`. */
  lemma ArrayLiteralTwoDigitCount(items: String)
    ensures ArrayLiteral("(10:" + items + ")") == "{:" + MapChar(items, ')', '}') + "}"
  {
    var v := "(10:" + items + ")";
    ArrayLiteralSpec(v);
    var m := MapChar(v, ')', '}');
    assert m[3..] == ":" + MapChar(items, ')', '}') + "}";
  }

  /** An attribute value of a feature: a NULL (a `QVariant`) or text. */
  datatype AttrValue = Null | Text(text: String)

  /** A feature's attributes by column name; `f[column]` raises KeyError for an unknown column. */
  type Feature = map<String, AttrValue>

  datatype Outcome = Done | Raised(error: ExportError)

  /**
   * The column loop for one feature: reads each value from the feature as
   * fetched (`snapshot`) and writes the rewritten value into `current`;
   * a NULL is skipped, an unknown column raises and stops the loop.
   */
  function RewriteColumns(snapshot: Feature, current: Feature, columns: seq<String>): (Outcome, Feature) {
    if columns == [] then (Done, current)
    else
      var n := |columns| - 1;
      var (o, f) := RewriteColumns(snapshot, current, columns[..n]);
      if o.Raised? then (o, f)
      else RewriteColumn(snapshot, f, columns[n])
  }

  function RewriteColumn(snapshot: Feature, current: Feature, column: String): (Outcome, Feature) {
    if column !in snapshot then (Raised(KeyError(column)), current)
    else if snapshot[column].Null? then (Done, current)
    else (Done, current[column := Text(ArrayLiteral(snapshot[column].text))])
  }

  /**
   * The feature loop for one layer: the first `n` features are rewritten in
   * order, stopping at the first exception (earlier writes are kept).
   */
  function RewriteFeatures(features: seq<Feature>, columns: seq<String>, n: nat): (r: (Outcome, seq<Feature>))
    requires n <= |features|
    ensures |r.1| == |features| && r.1[n..] == features[n..]
  {
    if n == 0 then (Done, features)
    else
      var (o, fs) := RewriteFeatures(features, columns, n - 1);
      if o.Raised? then (o, fs)
      else
        var (o2, f) := RewriteColumns(features[n - 1], features[n - 1], columns);
        assert fs[n..] == features[n..] by {
          assert fs[n - 1..][1..] == fs[n..];
        }
        (o2, fs[n - 1 := f])
  }

  /**
   * The table loop over `dict_table_arrcolumns.items()`: a table that is
   * not a layer of the GeoPackage raises; otherwise its features are rewritten.
   */
  function RewriteTables(layers: map<String, seq<Feature>>, entries: Dict<String, seq<String>>): (Outcome, map<String, seq<Feature>>) {
    if entries == [] then (Done, layers)
    else
      var n := |entries| - 1;
      var (o, ls) := RewriteTables(layers, entries[..n]);
      if o.Raised? then (o, ls)
      else
        var table := entries[n].key;
        if table !in ls then (Raised(InvalidSource(table)), ls)
        else
          var (o2, fs) := RewriteFeatures(ls[table], entries[n].value, |ls[table]|);
          (o2, ls[table := fs])
  }

  /** `geopackage + '|layername=' + table`: the OGR URI of one layer. */
  function LayerUri(geopackage: String, table: String): String {
    geopackage + "|layername=" + table
  }

  /** The GeoPackage the export writes; `layers` holds the features of each layer, updated in place. */
  class GeoPackage {
    var layers: map<String, seq<Feature>>

    constructor (exported: map<String, seq<Feature>>)
      ensures layers == exported
    {
      layers := exported;
    }

    /**
     * The PyQGIS update loop: every array value of every feature of every
     * table in the dictionary is rewritten with `changeAttributeValues`, one
     * value at a time, until the loop ends or raises.
     */
    method RewriteArrayColumns(dictTableArrcolumns: Dict<String, seq<String>>) returns (outcome: Outcome)
      modifies this
      ensures (outcome, layers) == RewriteTables(old(layers), dictTableArrcolumns)
    {
      for i := 0 to |dictTableArrcolumns|
        invariant (Done, layers) == RewriteTables(old(layers), dictTableArrcolumns[..i])
      {
        assert dictTableArrcolumns[..i + 1][..i] == dictTableArrcolumns[..i];
        var table, arrcolumn := dictTableArrcolumns[i].key, dictTableArrcolumns[i].value;
        if table !in layers {
          outcome := Raised(InvalidSource(table));
          TablesRaisedStays(old(layers), dictTableArrcolumns, i + 1);
          return;
        }
        var features := layers[table];
        var o := RewriteLayer(table, features, arrcolumn);
        if o.Raised? {
          outcome := o;
          TablesRaisedStays(old(layers), dictTableArrcolumns, i + 1);
          return;
        }
      }
      assert dictTableArrcolumns[..|dictTableArrcolumns|] == dictTableArrcolumns;
      outcome := Done;
    }

    /** The feature loop of one table, writing each rewritten value back into the layer. */
    method RewriteLayer(table: String, features: seq<Feature>, arrcolumn: seq<String>) returns (outcome: Outcome)
      requires table in layers && layers[table] == features
      modifies this
      ensures (outcome, layers) == (RewriteFeatures(features, arrcolumn, |features|).0,
                                    old(layers)[table := RewriteFeatures(features, arrcolumn, |features|).1])
    {
      for j := 0 to |features|
        invariant table in layers
        invariant RewriteFeatures(features, arrcolumn, j) == (Done, layers[table])
        invariant layers == old(layers)[table := layers[table]]
      {
        ghost var before := layers[table];
        var f := features[j];
        var fid := j;
        assert before[fid] == f by {
          assert before[j..][0] == features[j..][0];
        }
        for k := 0 to |arrcolumn|
          invariant table in layers
          invariant RewriteColumns(f, f, arrcolumn[..k]).0 == Done
          invariant layers[table] == before[fid := RewriteColumns(f, f, arrcolumn[..k]).1]
          invariant layers == old(layers)[table := layers[table]]
        {
          assert arrcolumn[..k + 1][..k] == arrcolumn[..k];
          var column := arrcolumn[k];
          if column !in f {
            outcome := Raised(KeyError(column));
            ColumnsRaisedStays(f, f, arrcolumn, k + 1);
            FeaturesRaisedStays(features, arrcolumn, j + 1);
            return;
          }
          var fvalue := f[column];
          if fvalue.Null? {
            continue;
          }
          var mfvalue := ArrayLiteral(fvalue.text);
          layers := layers[table := layers[table][fid := layers[table][fid][column := Text(mfvalue)]]];
        }
        assert arrcolumn[..|arrcolumn|] == arrcolumn;
      }
      outcome := Done;
    }
  }

  /** Once a table raises, the tables after it change nothing. */
  lemma {:induction false} TablesRaisedStays(layers: map<String, seq<Feature>>, entries: Dict<String, seq<String>>, m: nat)
    requires m <= |entries| && RewriteTables(layers, entries[..m]).0.Raised?
    ensures RewriteTables(layers, entries) == RewriteTables(layers, entries[..m])
    decreases |entries| - m
  {
    if m < |entries| {
      var e := entries[..m + 1];
      assert e[..m] == entries[..m];
      TablesRaisedStays(layers, entries, m + 1);
    } else {
      assert entries[..m] == entries;
    }
  }

  /** Once a feature raises, the features after it are left as they are. */
  lemma {:induction false} FeaturesRaisedStays(features: seq<Feature>, columns: seq<String>, m: nat)
    requires m <= |features| && RewriteFeatures(features, columns, m).0.Raised?
    ensures RewriteFeatures(features, columns, |features|) == RewriteFeatures(features, columns, m)
    decreases |features| - m
  {
    if m < |features| {
      FeaturesRaisedStays(features, columns, m + 1);
    }
  }

  /** Once a column raises, the columns after it are not read. */
  lemma {:induction false} ColumnsRaisedStays(snapshot: Feature, current: Feature, columns: seq<String>, m: nat)
    requires m <= |columns| && RewriteColumns(snapshot, current, columns[..m]).0.Raised?
    ensures RewriteColumns(snapshot, current, columns) == RewriteColumns(snapshot, current, columns[..m])
    decreases |columns| - m
  {
    if m < |columns| {
      var c := columns[..m + 1];
      assert c[..m] == columns[..m];
      ColumnsRaisedStays(snapshot, current, columns, m + 1);
    } else {
      assert columns[..m] == columns;
    }
  }

  /**
   * The column loop of one feature succeeds exactly when the feature has
   * every listed column; it then holds the rewritten text of each non-NULL
   * listed column and the old value of every other attribute. Otherwise it
   * raises KeyError for the first missing column.
   */
  lemma RewriteColumnsSpec(snapshot: Feature, current: Feature, columns: seq<String>)
    ensures RewriteColumns(snapshot, current, columns).0.Done? <==>
      forall k :: 0 <= k < |columns| ==> columns[k] in snapshot
    ensures RewriteColumns(snapshot, current, columns).0.Done? ==>
      forall c :: c in RewriteColumns(snapshot, current, columns).1 <==>
        c in current || (c in columns && c in snapshot && snapshot[c].Text?)
    ensures RewriteColumns(snapshot, current, columns).0.Done? ==>
      forall c :: c in RewriteColumns(snapshot, current, columns).1 ==>
        RewriteColumns(snapshot, current, columns).1[c] ==
          if c in columns && c in snapshot && snapshot[c].Text? then Text(ArrayLiteral(snapshot[c].text))
          else current[c]
    ensures RewriteColumns(snapshot, current, columns).0.Raised? ==>
      exists k :: 0 <= k < |columns| && columns[k] !in snapshot &&
        (forall j :: 0 <= j < k ==> columns[j] in snapshot) &&
        RewriteColumns(snapshot, current, columns).0 == Raised(KeyError(columns[k]))
  {
    RewriteColumnsDone(snapshot, current, columns);
    if RewriteColumns(snapshot, current, columns).0.Done? {
      RewriteColumnsResult(snapshot, current, columns);
    } else {
      RewriteColumnsRaised(snapshot, current, columns);
    }
  }

  /** The column loop gets through exactly when the feature has every listed column. */
  lemma {:induction false} RewriteColumnsDone(snapshot: Feature, current: Feature, columns: seq<String>)
    ensures RewriteColumns(snapshot, current, columns).0.Done? <==>
      forall k :: 0 <= k < |columns| ==> columns[k] in snapshot
  {
    if columns != [] {
      var n := |columns| - 1;
      var init := columns[..n];
      RewriteColumnsDone(snapshot, current, init);
      assert forall k :: 0 <= k < n ==> init[k] == columns[k];
    }
  }

  /** After a loop that got through: the listed non-NULL columns are rewritten and everything else is kept. */
  lemma {:induction false} RewriteColumnsResult(snapshot: Feature, current: Feature, columns: seq<String>)
    requires RewriteColumns(snapshot, current, columns).0.Done?
    ensures forall c :: c in RewriteColumns(snapshot, current, columns).1 <==>
      c in current || (c in columns && c in snapshot && snapshot[c].Text?)
    ensures forall c :: c in RewriteColumns(snapshot, current, columns).1 ==>
      RewriteColumns(snapshot, current, columns).1[c] ==
        if c in columns && c in snapshot && snapshot[c].Text? then Text(ArrayLiteral(snapshot[c].text))
        else current[c]
  {
    if columns != [] {
      var n := |columns| - 1;
      var init := columns[..n];
      RewriteColumnsResult(snapshot, current, init);
      assert forall c :: c in columns <==> c in init || c == columns[n] by {
        assert columns == init + [columns[n]];
      }
    }
  }

  /** A loop that raised did so with the KeyError of the first listed column the feature lacks. */
  lemma {:induction false} RewriteColumnsRaised(snapshot: Feature, current: Feature, columns: seq<String>)
    requires RewriteColumns(snapshot, current, columns).0.Raised?
    ensures exists k :: 0 <= k < |columns| && columns[k] !in snapshot &&
                        (forall j :: 0 <= j < k ==> columns[j] in snapshot) &&
                        RewriteColumns(snapshot, current, columns).0 == Raised(KeyError(columns[k]))
  {
    var n := |columns| - 1;
    var init := columns[..n];
    var (o, f) := RewriteColumns(snapshot, current, init);
    if o.Raised? {
      RewriteColumnsRaised(snapshot, current, init);
      var k :| 0 <= k < |init| && init[k] !in snapshot && (forall j :: 0 <= j < k ==> init[j] in snapshot) &&
        o == Raised(KeyError(init[k]));
      assert columns[k] == init[k];
      assert forall j :: 0 <= j < k ==> columns[j] == init[j];
    } else {
      RewriteColumnsDone(snapshot, current, init);
      assert forall j :: 0 <= j < n ==> columns[j] == init[j];
      assert columns[n] !in snapshot;
    }
  }

  /**
   * The feature loop succeeds exactly when every feature has every listed
   * column, and then each feature is its own column rewrite.
   */
  lemma {:induction false} RewriteFeaturesSpec(features: seq<Feature>, columns: seq<String>, n: nat)
    requires n <= |features|
    ensures RewriteFeatures(features, columns, n).0.Done? <==>
      forall i, k :: 0 <= i < n && 0 <= k < |columns| ==> columns[k] in features[i]
    ensures RewriteFeatures(features, columns, n).0.Done? ==>
      forall i :: 0 <= i < n ==>
        RewriteFeatures(features, columns, n).1[i] == RewriteColumns(features[i], features[i], columns).1
  {
    if n > 0 {
      RewriteFeaturesSpec(features, columns, n - 1);
      RewriteColumnsSpec(features[n - 1], features[n - 1], columns);
    }
  }

  /**
   * A successful rewrite keeps the set of layers, and a layer that has no
   * entry in the dictionary keeps its features.
   */
  lemma {:induction false} RewriteTablesKeepsOthers(layers: map<String, seq<Feature>>, entries: Dict<String, seq<String>>)
    ensures RewriteTables(layers, entries).0.Done? ==> RewriteTables(layers, entries).1.Keys == layers.Keys
    ensures forall t :: t in layers && t !in Keys(entries) ==>
      t in RewriteTables(layers, entries).1 && RewriteTables(layers, entries).1[t] == layers[t]
  {
    if entries != [] {
      var n := |entries| - 1;
      assert Keys(entries) == Keys(entries[..n]) + [entries[n].key];
      RewriteTablesKeepsOthers(layers, entries[..n]);
    }
  }

  /** A table whose entry can be rewritten: it is a layer and each of its features has every listed column. */
  ghost predicate TableReady(layers: map<String, seq<Feature>>, entry: Entry<String, seq<String>>) {
    entry.key in layers &&
    forall j, k :: 0 <= j < |layers[entry.key]| && 0 <= k < |entry.value| ==>
      entry.value[k] in layers[entry.key][j]
  }

  /** One more table entry: the rewrite still succeeds exactly when that table is ready. */
  lemma RewriteTablesStep(layers: map<String, seq<Feature>>, entries: Dict<String, seq<String>>)
    requires entries != [] && entries[|entries| - 1].key !in Keys(entries[..|entries| - 1])
    ensures RewriteTables(layers, entries).0.Done? <==>
      RewriteTables(layers, entries[..|entries| - 1]).0.Done? && TableReady(layers, entries[|entries| - 1])
  {
    var n := |entries| - 1;
    var init, e := entries[..n], entries[n];
    var (o, ls) := RewriteTables(layers, init);
    if o.Done? {
      assert e.key in ls <==> e.key in layers by {
        RewriteTablesKeepsOthers(layers, init);
      }
      if e.key in layers {
        var fs := layers[e.key];
        assert ls[e.key] == fs by {
          RewriteTablesKeepsOthers(layers, init);
        }
        assert RewriteTables(layers, entries).0 == RewriteFeatures(fs, e.value, |fs|).0;
        RewriteFeaturesSpec(fs, e.value, |fs|);
      }
    }
  }

  /** The rewrite succeeds exactly when every table with an entry is a layer whose features have its columns. */
  lemma {:induction false} RewriteTablesDone(layers: map<String, seq<Feature>>, entries: Dict<String, seq<String>>)
    requires Distinct(Keys(entries))
    ensures RewriteTables(layers, entries).0.Done? <==>
      forall i :: 0 <= i < |entries| ==> TableReady(layers, entries[i])
  {
    if entries != [] {
      var n := |entries| - 1;
      var init := entries[..n];
      DistinctInit(entries);
      RewriteTablesStep(layers, entries);
      RewriteTablesDone(layers, init);
      assert forall i :: 0 <= i < n ==> init[i] == entries[i];
    }
  }

  /**
   * After a successful run, each table with an entry holds the result of its
   * own feature loop, started from its features before the run.
   */
  lemma {:induction false} RewriteTablesEntry(layers: map<String, seq<Feature>>, entries: Dict<String, seq<String>>, i: nat)
    requires Distinct(Keys(entries)) && i < |entries| && RewriteTables(layers, entries).0.Done?
    ensures entries[i].key in layers && entries[i].key in RewriteTables(layers, entries).1
    ensures RewriteFeatures(layers[entries[i].key], entries[i].value, |layers[entries[i].key]|).0.Done?
    ensures RewriteTables(layers, entries).1[entries[i].key] ==
      RewriteFeatures(layers[entries[i].key], entries[i].value, |layers[entries[i].key]|).1
  {
    var n := |entries| - 1;
    var init, e := entries[..n], entries[n];
    DistinctInit(entries);
    var (o, ls) := RewriteTables(layers, init);
    assert o.Done? && e.key in ls;
    var fs := RewriteFeatures(ls[e.key], e.value, |ls[e.key]|);
    var r := RewriteTables(layers, entries);
    assert r.0 == fs.0 && r.1 == ls[e.key := fs.1];
    if i == n {
      assert e.key in layers && ls[e.key] == layers[e.key] by {
        RewriteTablesKeepsOthers(layers, init);
      }
    } else {
      var k, cols := entries[i].key, entries[i].value;
      assert k in layers && RewriteFeatures(layers[k], cols, |layers[k]|).0.Done?
        && k in ls && ls[k] == RewriteFeatures(layers[k], cols, |layers[k]|).1 by {
        assert init[i] == entries[i];
        RewriteTablesEntry(layers, init, i);
      }
      assert k != e.key by {
        assert Keys(entries)[i] == k && Keys(entries)[n] == e.key;
      }
      assert r.1[k] == ls[k];
    }
  }

  /**
   * After a successful run, feature `j` of a table with an entry is that
   * feature with its listed columns rewritten: the listed non-NULL values
   * become array literals and every other attribute is kept.
   */
  lemma RewriteTablesContent(layers: map<String, seq<Feature>>, entries: Dict<String, seq<String>>, i: nat)
    requires Distinct(Keys(entries)) && i < |entries| && RewriteTables(layers, entries).0.Done?
    ensures entries[i].key in layers && entries[i].key in RewriteTables(layers, entries).1
    ensures |RewriteTables(layers, entries).1[entries[i].key]| == |layers[entries[i].key]|
    ensures forall j :: 0 <= j < |layers[entries[i].key]| ==>
      RewriteTables(layers, entries).1[entries[i].key][j] ==
        RewriteColumns(layers[entries[i].key][j], layers[entries[i].key][j], entries[i].value).1
  {
    RewriteTablesEntry(layers, entries, i);
    var fs := layers[entries[i].key];
    RewriteFeaturesSpec(fs, entries[i].value, |fs|);
  }
}
