# PubliBase processing algorithms — a Dafny model of their string and list logic

PubliBase is a set of processing algorithms for QGIS. They publish PostGIS
schemas to GeoServer, move schemas between PostGIS and GeoPackage for
reambulation (field revision), and manage GeoServer styles. Nearly all of
this is glue around HTTP, SQL, `ogr2ogr` and QGIS calls. Between those calls
the algorithms transform lists of names and strings step by step. This
project models those transformations. Each one takes what the glue fetches
(feature-type lists, style lists, row counts, ARRAY-column lists, layer
validity) as an input, and each is proved against an independent
specification.

One module per source file, plus shared modules for the Python semantics
the code relies on:

| module | file | models |
|---|---|---|
| `PyStr` | py_str.dfy | Python `str`: `in`, `find`/`rfind`, slicing with negative indices, `rstrip(chars)`, `replace` (including an empty pattern), `count`, `split`, ASCII `upper`/`title` |
| `PyDict` | py_dict.dfy | an insertion-ordered `dict`: `d[k] = v` keeps a present key's position and appends a new key; `items()` order |
| `PosixPath` | posix_path.dfy | `os.path.join`, `basename`, `splitext`, and the `*.sld` glob match |
| `Wrappers` | wrappers.dfy | `Option`, `Result`, and the first-exception-wins evaluation of a comprehension |
| `GeoserverUrl` | geoserver_url.dfy | the shared `geoserver_url.rstrip('web/')` |
| `StyleAssociation` | style_association.dfy | `StyleAssociator`: the longest-substring style matcher and the PUTs |
| `WorkspaceStyleFilter` | workspace_style_filter.dfy | `LayersWithoutWorkspaceStyle`: layers whose default style belongs to another workspace |
| `CcarNaming` | ccar_naming.dfy | EDGV table names to GeoServer names, titles, abstracts and payloads |
| `ReambExport` | reamb_export.dfy | the ARRAY-column dictionary and the `(n:a,b)` to `{a,b}` rewrite inside the GeoPackage |
| `RenameLayers` | rename_layers.dfy | find/replace over feature-type names and titles |
| `ReambImport` | reamb_import.dfy | the `reamb` schema guard, the non-empty layer selection and the import loop |
| `SldUpload` | sld_upload.dfy | `SLDFolderUploader`: zip path, zip entry and style name of each `.sld` file |
| `ProjectStyles` | project_styles.dfy | `save_project_vector_styles`: vector layers keyed by name, QML and SLD paths |

The model takes the source's own form. Loops that build lists or dicts
step by step are `method`s. Each one is proved equal to a recursive
specification function, and lemmas state what that function promises. The
GeoPackage, whose features the reambulation export changes in place, is a
`class` with a `map` field. Exceptions are `Result`/`Option` values, raised
in the order Python evaluates the expressions.

Where the code and its description disagree, the model follows the code:

- A table name without `_` gives the category key `table[:-1].upper()`,
  because `find` returns -1. It does not give the whole name.
- A `names1` without `_` gives the class name `names1[:-1]`, for the same
  reason with `rfind`.
- The `titles` comprehension runs for every table before the payload loop.
  An empty `names1` therefore raises `IndexError` before any `KeyError` of
  an earlier table.
- `rstrip('web/')` strips characters, not a suffix. So
  `http://localhost:8080/ibge/web` becomes `http://localhost:8080/ibg`.

## Model

| member | source | states |
|---|---|---|
| `GeoserverUrl.BaseUrl` | processing/geoserver_algs/associate_layers_to_workspace_styles.py:27 | the normalised URL is a prefix of the input, does not end in `w`, `e`, `b` or `/`, and only such characters were removed |
| `GeoserverUrl.BaseUrlIdempotent` | processing/geoserver_algs/associate_layers_to_workspace_styles.py:27 | normalising twice changes nothing |
| `GeoserverUrl.BaseUrlDropsWeb` | processing/geoserver_algs/associate_layers_to_workspace_styles.py:190 | a URL not ending in `w`, `e`, `b` or `/` loses a trailing `/web/` or `/web` and is otherwise unchanged |
| `GeoserverUrl.BaseUrlOverStrips` | processing/geoserver_algs/associate_layers_to_workspace_styles.py:190 | `…/ibge/web` becomes `…/ibg`: `rstrip` removes characters, not a suffix |
| `PyStr.RStrip` | processing/geoserver_algs/upload_styles_to_workspace.py:35 | `rstrip(chars)` removes exactly the longest trailing run of characters in `chars` |
| `PyStr.ContainsIsSubstring` | processing/geoserver_algs/associate_layers_to_workspace_styles.py:90 | Python `style in featuretype` holds iff the style occurs contiguously, case-sensitively, in the name |
| `PyStr.ReplaceAbsent` | processing/geoserver_algs/replace_string_in_name_and_title_of_store_layers.py:146 | `str.replace` leaves a string that does not contain the pattern unchanged |
| `PyStr.ReplaceSame` | processing/geoserver_algs/replace_string_in_name_and_title_of_store_layers.py:146-147 | replacing a pattern by itself changes nothing, the empty pattern included |
| `PyStr.ReplaceLength` | processing/geoserver_algs/replace_string_in_name_and_title_of_store_layers.py:146-147 | the length identity `len(s.replace(a, b)) == len(s) + s.count(a) * (len(b) - len(a))` |
| `PyStr.Title` | processing/geoserver_algs/postgis_schema2geoserver_ccar.py:197 | ASCII `title()`: a letter is upper-cased after a non-letter or at the start, lower-cased after a letter; other characters are kept |
| `PyStr.SplitFirst` | processing/geoserver_algs/find_layers_without_workspace_style.py:92 | the first part of `split(':')` is the text before the first `:`, and there is a single part iff there is no `:` |
| `PyStr.SplitJoin` | processing/geoserver_algs/find_layers_without_workspace_style.py:92 | no part of a split contains the separator, and joining the parts gives the string back |
| `PyDict.Set` | processing/geoserver_algs/find_layers_without_workspace_style.py:82 | `d[k] = v` keeps the key order when `k` is present and appends `k` otherwise |
| `PyDict.FromPairsGet` | processing/geoserver_algs/find_layers_without_workspace_style.py:68-84 | a dict filled pair by pair maps each key to the value of its last pair |
| `PyDict.FromPairsKeys` | processing/geoserver_algs/find_layers_without_workspace_style.py:68-84 | a dict filled pair by pair has the keys in order of first occurrence |
| `PyDict.DedupCardinality` | processing/utils_algs/save_project_vector_styles.py:35-38 | the number of keys of such a dict is the number of distinct keys |
| `PyDict.SetKeysDedup` | processing/geoserver_algs/associate_layers_to_workspace_styles.py:79-104 | setting the keys of a sequence one by one lists them in order of first appearance |
| `PyDict.DistinctInit` | processing/algs/postgis_schema2geopackage_reambulation.py:234-238 | the entries of a dict before its last one have distinct keys, none equal to the last key |
| `PyDict.DistinctSnoc` | processing/geoserver_algs/find_layers_without_workspace_style.py:91-98 | appending an element not yet present keeps a list free of repetitions |
| `StyleAssociation.AssociatedStyle` | processing/geoserver_algs/associate_layers_to_workspace_styles.py:85-99 | the inner loop returns `None` iff no style is a substring; otherwise a substring at least as long as every matching style, with every later matching style strictly shorter (the last of the longest wins) |
| `StyleAssociation.AssociationUnique` | processing/geoserver_algs/associate_layers_to_workspace_styles.py:88-99 | the association is a function of the feature type and the style list |
| `StyleAssociation.AssociationIsLongestSubstring` | processing/geoserver_algs/associate_layers_to_workspace_styles.py:88-97 | an associated style is a substring of the name and no matching style is longer |
| `StyleAssociation.BuildAssociationDictionary` | processing/geoserver_algs/associate_layers_to_workspace_styles.py:79-104 | exactly one entry per distinct feature type, in feature-type order, whose value is that feature type's association |
| `StyleAssociation.AssociateStep` | processing/geoserver_algs/associate_layers_to_workspace_styles.py:79-104 | storing one more feature type's association keeps first-seen key order and every earlier association |
| `StyleAssociation.AssociateStyles` | processing/geoserver_algs/associate_layers_to_workspace_styles.py:107-134 | the PUTs in dict order, skipping `None`, to base + `/rest/layers/` + workspace + `:` + layer |
| `StyleAssociation.PutsForLayer` | processing/geoserver_algs/associate_layers_to_workspace_styles.py:117-132 | a layer gets a PUT iff its value is a style, and the body then names `styles_workspace:style` |
| `StyleAssociation.AssociateLayersToWorkspaceStyles` | processing/geoserver_algs/associate_layers_to_workspace_styles.py:24-134 | a feature type gets a PUT iff some style is a substring of it, and its body names the association |
| `StyleAssociation.EmptyStyleMatchesAll` | processing/geoserver_algs/associate_layers_to_workspace_styles.py:90 | with an empty style name in the list, no feature type is left with `None` |
| `StyleAssociation.EmptyStyleOnlyMatch` | processing/geoserver_algs/associate_layers_to_workspace_styles.py:90-99 | when only the empty style matches, the value is `''`, not `None` |
| `StyleAssociation.TieBreakExamples` | processing/geoserver_algs/associate_layers_to_workspace_styles.py:180-187 | among equally long matches the later style wins, so `['ab','bc']` gives `bc` and `['bc','ab']` gives `ab` for `abc` |
| `StyleAssociation.LongestWinsExample` | processing/geoserver_algs/associate_layers_to_workspace_styles.py:88-97 | the longer match wins wherever it stands in the list |
| `WorkspaceStyleFilter.RetrieveLayersWithStyle` | processing/geoserver_algs/find_layers_without_workspace_style.py:59-84 | the dict has the feature types in first-occurrence order, each mapped to its last fetched style |
| `WorkspaceStyleFilter.OutsideWorkspaceIff` | processing/geoserver_algs/find_layers_without_workspace_style.py:92-95 | a style is not reported iff it starts with `workspace:` and the workspace has no `:` |
| `WorkspaceStyleFilter.NoColonIsOutside` | processing/geoserver_algs/find_layers_without_workspace_style.py:92-96 | a style without `:` is always reported, even when it equals the workspace |
| `WorkspaceStyleFilter.OutsideWorkspaceIgnoresStyleName` | processing/geoserver_algs/find_layers_without_workspace_style.py:92-94 | nothing after the first `:` affects the test |
| `WorkspaceStyleFilter.FindLayers` | processing/geoserver_algs/find_layers_without_workspace_style.py:87-98 | the loop returns the reported layers in dict order |
| `WorkspaceStyleFilter.LayersOutsideSpec` | processing/geoserver_algs/find_layers_without_workspace_style.py:87-98 | a layer is reported iff its style is outside the workspace, and none is reported twice |
| `WorkspaceStyleFilter.WriteLayers` | processing/geoserver_algs/find_layers_without_workspace_style.py:234-236 | the file holds each reported layer followed by a newline |
| `WorkspaceStyleFilter.LinesSplit` | processing/geoserver_algs/find_layers_without_workspace_style.py:234-236 | splitting the file on newlines gives the reported layers back |
| `WorkspaceStyleFilter.FindLayersWithoutWorkspaceStyle` | processing/geoserver_algs/find_layers_without_workspace_style.py:223-236 | a store layer is written exactly once iff its default style is outside the workspace |
| `CcarNaming.Names1` | processing/geoserver_algs/postgis_schema2geoserver_ccar.py:197 | the two `replace` calls map characters in place around `title()` |
| `CcarNaming.Names1Spec` | processing/geoserver_algs/postgis_schema2geoserver_ccar.py:197 | `names1` has the tail's length, no spaces, `_` at word breaks, and title-cased letters |
| `CcarNaming.TableTailSpec` | processing/geoserver_algs/postgis_schema2geoserver_ccar.py:197 | the tail is the text after the first `_`, or the whole name when there is no `_` |
| `CcarNaming.Names2Prefix` | processing/geoserver_algs/postgis_schema2geoserver_ccar.py:198 | `names2` is the prefix, `_`, then `names1` |
| `CcarNaming.TitleOfSpec` | processing/geoserver_algs/postgis_schema2geoserver_ccar.py:200 | a final P, L or A becomes `(Ponto)`, `(Linha)` or `(Área)`; any other name keeps all its words |
| `CcarNaming.TitleOfGeometryName` | processing/geoserver_algs/postgis_schema2geoserver_ccar.py:200 | for `base_G` the title is the prefix, the words of the base, a space and the geometry label |
| `CcarNaming.GeometryLabels` | processing/geoserver_algs/postgis_schema2geoserver_ccar.py:194 | the geometry table has keys P, L and A; the abstract uses their labels without parentheses |
| `CcarNaming.CategoryTable` | processing/geoserver_algs/postgis_schema2geoserver_ccar.py:203-208 | HDV and ROD share a category name, and lookups are case-sensitive |
| `CcarNaming.CategoryKeySpec` | processing/geoserver_algs/postgis_schema2geoserver_ccar.py:217 | the category key is the upper-cased text before the first `_`, or the name minus its last character when there is none |
| `CcarNaming.ClassNameSpec` | processing/geoserver_algs/postgis_schema2geoserver_ccar.py:216 | the class name is `names1` up to its last `_`, or minus its last character when there is none |
| `CcarNaming.ClassNameOfGeometryName` | processing/geoserver_algs/postgis_schema2geoserver_ccar.py:216 | the class name of `base_G` is `base` |
| `CcarNaming.CodedTable` | processing/geoserver_algs/postgis_schema2geoserver_ccar.py:197-217 | a table `<code>_<rest>` has tail `rest` and category key `code` upper-cased |
| `CcarNaming.AbstractSucceeds` | processing/geoserver_algs/postgis_schema2geoserver_ccar.py:216-217 | the abstract builds iff the name ends in P, L or A and the category key is in the table |
| `CcarNaming.BuildPayloads` | processing/geoserver_algs/postgis_schema2geoserver_ccar.py:193-222 | the names, titles and payload loop give the schema's payloads or the first exception Python raises |
| `CcarNaming.SchemaPayloadsSucceed` | processing/geoserver_algs/postgis_schema2geoserver_ccar.py:197-221 | the payloads build iff every table is well named |
| `CcarNaming.PayloadsSucceed` | processing/geoserver_algs/postgis_schema2geoserver_ccar.py:211-221 | once the titles are built, the payload loop finishes iff every table is well named |
| `CcarNaming.SchemaPayloadsContent` | processing/geoserver_algs/postgis_schema2geoserver_ccar.py:211-221 | a well-named schema gives one payload per table, in order, with nativeName the table and name `names2[i]` |
| `CcarNaming.PayloadsContent` | processing/geoserver_algs/postgis_schema2geoserver_ccar.py:211-221 | with every title built and every table well named, payload `i` is the one table `i` gives on its own |
| `CcarNaming.EmptyNameRaisesFirst` | processing/geoserver_algs/postgis_schema2geoserver_ccar.py:200 | an empty `names1` anywhere raises `IndexError` before any payload is built |
| `CcarNaming.FirstKeyErrorRaised` | processing/geoserver_algs/postgis_schema2geoserver_ccar.py:212-217 | otherwise the first badly named table raises `KeyError` for its geometry letter, or else its category |
| `CcarNaming.PayloadsFirstError` | processing/geoserver_algs/postgis_schema2geoserver_ccar.py:212-217 | the payload loop raises the `KeyError` of the first badly named table |
| `CcarNaming.Publish` | processing/geoserver_algs/postgis_schema2geoserver_ccar.py:243-251 | one POST per payload, in order, to the same URL |
| `CcarNaming.PublishedSpec` | processing/geoserver_algs/postgis_schema2geoserver_ccar.py:243-249 | a layer is logged as published iff its POST answered with an empty body |
| `ReambExport.ShapeGuard` | processing/algs/postgis_schema2geopackage_reambulation.py:133-139 | an invalid non-empty clip path raises; otherwise the export clips iff a path was given |
| `ReambExport.BuildArrayColumnDict` | processing/algs/postgis_schema2geopackage_reambulation.py:187-204 | the loop builds the table to ARRAY-columns dictionary |
| `ReambExport.ArrayColumnDictStep` | processing/algs/postgis_schema2geopackage_reambulation.py:190-204 | one more table listing adds its table to the keys exactly when its ARRAY-column list is non-empty |
| `ReambExport.ArrayColumnDictKeys` | processing/algs/postgis_schema2geopackage_reambulation.py:190-204 | a table has an entry iff its ARRAY-column list is non-empty |
| `ReambExport.ArrayColumnDictValue` | processing/algs/postgis_schema2geopackage_reambulation.py:201-204 | a table's entry holds the ARRAY-column list of its last listing that has one (a later, empty listing does not overwrite it) |
| `ReambExport.ArrayColumnDictEntries` | processing/algs/postgis_schema2geopackage_reambulation.py:190-204 | no table is listed twice and every entry lists some column |
| `ReambExport.ArrayLiteralSpec` | processing/algs/postgis_schema2geopackage_reambulation.py:248 | the rewrite is `{` followed by the value with `)` mapped to `}` and its first three characters dropped; its length is 1 + max(0, len − 3) |
| `ReambExport.ArrayLiteralOneDigitCount` | processing/algs/postgis_schema2geopackage_reambulation.py:248 | `(d:items)` becomes `{items}` |
| `ReambExport.ArrayLiteralExample` | processing/algs/postgis_schema2geopackage_reambulation.py:248 | `(3:a,b,c)` becomes `{a,b,c}` |
| `ReambExport.ArrayLiteralTwoDigitCount` | processing/algs/postgis_schema2geopackage_reambulation.py:248 | with a two-digit count the `:` survives: `(10:…)` becomes `{:…}` |
| `ReambExport.RewriteFeatures` | processing/algs/postgis_schema2geopackage_reambulation.py:242-251 | features past the loop's position are untouched |
| `ReambExport.GeoPackage.RewriteLayer` | processing/algs/postgis_schema2geopackage_reambulation.py:240-251 | the feature loop of one table writes the rewrite of every non-NULL listed value back into that layer only |
| `ReambExport.GeoPackage.RewriteArrayColumns` | processing/algs/postgis_schema2geopackage_reambulation.py:234-251 | the table loop leaves the GeoPackage as the specification function gives it, stopping at the first exception |
| `ReambExport.RewriteColumnsSpec` | processing/algs/postgis_schema2geopackage_reambulation.py:244-251 | listed non-NULL values are rewritten, NULLs and other attributes kept; a missing column raises `KeyError` |
| `ReambExport.RewriteColumnsDone` | processing/algs/postgis_schema2geopackage_reambulation.py:244-251 | the column loop gets through iff the feature has every listed column |
| `ReambExport.RewriteColumnsResult` | processing/algs/postgis_schema2geopackage_reambulation.py:244-251 | after the column loop, exactly the listed non-NULL columns hold array literals of their old text; every other attribute keeps its value |
| `ReambExport.RewriteColumnsRaised` | processing/algs/postgis_schema2geopackage_reambulation.py:244-251 | a column loop that raised did so with `KeyError` of the first listed column the feature lacks |
| `ReambExport.RewriteFeaturesSpec` | processing/algs/postgis_schema2geopackage_reambulation.py:242-251 | every feature is rewritten on its own, and the loop succeeds iff all have the listed columns |
| `ReambExport.RewriteTablesKeepsOthers` | processing/algs/postgis_schema2geopackage_reambulation.py:234-251 | tables without an entry keep their features and no layer appears or disappears |
| `ReambExport.RewriteTablesStep` | processing/algs/postgis_schema2geopackage_reambulation.py:234-251 | with one more (new) table entry, the rewrite still succeeds iff that table is a layer whose features have its columns |
| `ReambExport.RewriteTablesDone` | processing/algs/postgis_schema2geopackage_reambulation.py:234-238 | the rewrite succeeds iff every listed table is a valid layer whose features have its columns |
| `ReambExport.RewriteTablesEntry` | processing/algs/postgis_schema2geopackage_reambulation.py:234-251 | after a successful run, each listed table holds the result of its own feature loop over its original features |
| `ReambExport.RewriteTablesContent` | processing/algs/postgis_schema2geopackage_reambulation.py:234-251 | after a successful run, a listed table keeps its length and feature `j` is that feature with its listed non-NULL columns turned into array literals, all else kept |
| `RenameLayers.RenameAll` | processing/geoserver_algs/replace_string_in_name_and_title_of_store_layers.py:146-147 | the renamed list has the same length and element i is `xs[i].replace(find, replace)` |
| `RenameLayers.RenameStoreLayers` | processing/geoserver_algs/replace_string_in_name_and_title_of_store_layers.py:155-172 | PUT i goes to url + `/` + the ORIGINAL name i and carries renamed name i and renamed title i |
| `RenameLayers.UntouchedLayerKeepsNames` | processing/geoserver_algs/replace_string_in_name_and_title_of_store_layers.py:146-162 | a layer whose name and title lack the pattern is PUT back unchanged |
| `RenameLayers.SameStringRenamesNothing` | processing/geoserver_algs/replace_string_in_name_and_title_of_store_layers.py:146-147 | with `replace == find` every name and title is unchanged |
| `RenameLayers.RenamedLength` | processing/geoserver_algs/replace_string_in_name_and_title_of_store_layers.py:146 | the new length grows by the length difference once per occurrence |
| `RenameLayers.EmptyFindInsertsEverywhere` | processing/geoserver_algs/replace_string_in_name_and_title_of_store_layers.py:146-147 | an empty pattern inserts the replacement at all len + 1 positions |
| `RenameLayers.EmptyFindExample` | processing/geoserver_algs/replace_string_in_name_and_title_of_store_layers.py:146-147 | `'ab'.replace('', '-')` is `'-a-b-'`, as Python's `str.replace` gives |
| `RenameLayers.NonOverlappingExample` | processing/geoserver_algs/replace_string_in_name_and_title_of_store_layers.py:146-147 | `'aaa'.replace('aa', 'b')` is `'ba'`: matches are taken left to right without overlap |
| `ReambImport.CheckSchema` | processing/algs/geopackage2postgis_schema_reambulation.py:149-150 | the run continues iff the schema name contains `reamb` |
| `ReambImport.SelectedIndices` | processing/algs/geopackage2postgis_schema_reambulation.py:171-182 | the positive-count positions, strictly increasing, and all of them |
| `ReambImport.SelectLayersToImport` | processing/algs/geopackage2postgis_schema_reambulation.py:157-182 | the selection loop builds `layers_import` |
| `ReambImport.NonEmptyLayersSpec` | processing/algs/geopackage2postgis_schema_reambulation.py:171-182 | `layers_import` is the catalogue at the positive-count positions, in order |
| `ReambImport.NonEmptyLayersMembership` | processing/algs/geopackage2postgis_schema_reambulation.py:171-182 | a layer is imported iff some catalogue entry of that name has rows |
| `ReambImport.ImportStep` | processing/algs/geopackage2postgis_schema_reambulation.py:258-274 | one layer: an invalid source, then an invalid target, raises; otherwise it appends into (schema, layer, `geom`) |
| `ReambImport.ImportLayers` | processing/algs/geopackage2postgis_schema_reambulation.py:253-275 | the import loop issues the appends of the specification, stopping at the first exception |
| `ReambImport.ImportRunSpec` | processing/algs/geopackage2postgis_schema_reambulation.py:253-274 | appends run in `layers_import` order; with an exception, exactly the layers before the first invalid one were appended |
| `ReambImport.CleanStatements` | processing/algs/geopackage2postgis_schema_reambulation.py:200-218 | one DELETE per base table when cleaning is on, none when it is off |
| `ReambImport.ReambulationImport` | processing/algs/geopackage2postgis_schema_reambulation.py:149-274 | no DELETE is issued; a non-`reamb` schema raises before any import; every append targets a non-empty catalogue layer |
| `PosixPath.Join` | processing/utils_algs/save_project_vector_styles.py:42-43 | an absolute second part wins; otherwise the parts are joined by at most one `/` |
| `PosixPath.BasenameJoin` | processing/geoserver_algs/upload_styles_to_workspace.py:58 | the basename of a folder joined with a plain name is that name |
| `PosixPath.SplitExtSpec` | processing/geoserver_algs/upload_styles_to_workspace.py:54 | root and extension rebuild the path, and an extension is one `.` with no `/` |
| `PosixPath.SplitExtSld` | processing/geoserver_algs/upload_styles_to_workspace.py:54 | a listed `.sld` path splits into its stem and `.sld` |
| `SldUpload.SldNames` | processing/geoserver_algs/upload_styles_to_workspace.py:47 | the listing entries matching `*.sld`, and only those |
| `SldUpload.FileList` | processing/geoserver_algs/upload_styles_to_workspace.py:47 | each matched name joined to the folder, in listing order |
| `SldUpload.NewUploader` | processing/geoserver_algs/upload_styles_to_workspace.py:31-47 | the styles URL is the normalised base + `/rest/workspaces/` + workspace + `/styles` |
| `SldUpload.ZipPathOfListed` | processing/geoserver_algs/upload_styles_to_workspace.py:54-55 | the zip path is the file's path with `.sld` replaced by `.zip` |
| `SldUpload.StyleNameOfListed` | processing/geoserver_algs/upload_styles_to_workspace.py:77-80 | the zip entry is the basename with extension, and the style name is it without `.sld` |
| `SldUpload.ZipSlds` | processing/geoserver_algs/upload_styles_to_workspace.py:49-62 | one zip write per file, in filelist order |
| `SldUpload.UploadZipfiles` | processing/geoserver_algs/upload_styles_to_workspace.py:65-94 | one POST and one report per file, in filelist order; a failed upload is reported and the loop goes on |
| `SldUpload.UploadStylesToWorkspace` | processing/geoserver_algs/upload_styles_to_workspace.py:190-196 | each POST sends the zip written for the same file, named after the file without `.sld`; each report names the file and says whether its upload passed |
| `SldUpload.HiddenFileHasNoExtension` | processing/geoserver_algs/upload_styles_to_workspace.py:54 | `splitext('.sld')` finds no extension |
| `ProjectStyles.VectorLayers` | processing/utils_algs/save_project_vector_styles.py:36-37 | exactly the layers of type VectorLayer are kept |
| `ProjectStyles.LastVectorNamed` | processing/utils_algs/save_project_vector_styles.py:36-38 | the reference for a name is a vector layer of that name, and is absent iff no vector layer has it |
| `ProjectStyles.KeptStep` | processing/utils_algs/save_project_vector_styles.py:35-38 | one more layer: a vector layer replaces or adds the entry under its name, any other layer leaves the dict unchanged |
| `ProjectStyles.KeptIsLastVectorNamed` | processing/utils_algs/save_project_vector_styles.py:35-38 | the dict keeps, under each name, the last vector layer with that name |
| `ProjectStyles.VectorNamesOfNames` | processing/utils_algs/save_project_vector_styles.py:35-38 | the dict's keys are exactly the distinct vector-layer names |
| `ProjectStyles.CollectVectorLayers` | processing/utils_algs/save_project_vector_styles.py:34-38 | the first loop builds the name-keyed dict, later layers replacing earlier ones |
| `ProjectStyles.StyleFileNames` | processing/utils_algs/save_project_vector_styles.py:42-43 | a plain layer name gives the file names `name.qml` and `name.sld` |
| `ProjectStyles.SaveStyles` | processing/utils_algs/save_project_vector_styles.py:41-45 | the second loop saves each dict entry to `qml_folder/name.qml` and `sld_folder/name.sld` |
| `ProjectStyles.SaveProjectVectorStyles` | processing/utils_algs/save_project_vector_styles.py:27-45 | one save pair per distinct vector-layer name, each name once, by the last vector layer of that name |

## Left out

- HTTP calls (`requests.get/post/put`) and JSON/XML parsing. Their results are inputs: feature-type names, style names, titles, default styles, POST responses and upload status.
- Database and GeoPackage queries (psycopg2, sqlite3). Their results are inputs: table lists, ARRAY-column lists, row counts.
- The `ogr2ogr` subprocess and the `-spat` extent string. Floating-point extents are not modelled.
- QGIS calls. Layer validity is an input. Feature iteration becomes a sequence of attribute maps. `changeAttributeValues` becomes a map update. `saveNamedStyle`/`saveSldStyle` become records of the paths written. `appendfeaturestolayer` becomes a record of its arguments.
- Writing the zip files and reading the folder. The folder listing is an input, and `glob` order is the listing order.
- Parameter declarations, `tr`, help strings and `feedback` logging. The GeoServer URL example in the help text is used only as a lemma input.
- The QGIS version branch (`qgs_version < 31400`), including `uri = db.uri` in postgis_schema2geoserver_ccar.py.
- The swallowed exception around each CCAR POST. It is modelled only as a response that is not an empty body.
- `PyStr.Title`: restricted to ASCII letters. Python's `title()` also cases other Unicode letters.
- `PyStr.Upper`: restricted to ASCII letters, for the same reason.
- `PosixPath.Join`, `PosixPath.Basename`, `PosixPath.SplitExt`: POSIX `/` semantics only. Windows separators and drive letters are not modelled.
- `SldUpload.SldNames`: the glob match is modelled as an unhidden name ending in `.sld`, without case folding.
- The other algorithms (create, delete and download workspace styles; publish a schema; deadvertise layers; export a schema to GeoPackage or shapefile) and the provider registry are not part of this model. They are REST or `ogr2ogr` templates around the same base-URL normalisation.
