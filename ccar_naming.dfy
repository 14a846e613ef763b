/**
 * The naming scheme of the CCAR publication: from the table names of a
 * PostGIS schema it derives the GeoServer layer name, title and abstract of
 * every table (EDGV 3.0 categories and geometry letters), builds one XML
 * feature-type payload per table and POSTs them. The table list and the
 * responses to the POSTs are inputs.
 */
module CcarNaming {
  import opened Wrappers
  import opened PyStr

  /** The exceptions the naming code can raise. */
  datatype CcarError = IndexError | KeyError(key: String)

  /** `dicio`: the geometry letter at the end of a name and its label. */
  const Geometries: map<String, String> :=
    map["P" := "(Ponto)", "L" := "(Linha)", "A" := "(Área)"]

  /** `dicio_cat`: the EDGV 3.0 category codes and their names. */
  const Categories: map<String, String> :=
    map[ "ENC" := "Energia e Comunicações", "ECO" := "Estrutura Econômica", "HID" := "Hidrografia",
         "LML" := "Limites e Localidades", "PTO" := "Pontos de Referência", "REL" := "Relevo",
         "SAB" := "Saneamento Básico", "TRA" := "Sistema de Transporte", "AER" := "Subsistema Aeroportuário",
         "DUT" := "Subsistema Dutos", "FER" := "Subsistema Ferroviário", "HDV" := "Subsistema Rodoviário",
         "ROD" := "Subsistema Rodoviário", "VEG" := "Vegetação", "VER" := "Área Verde",
         "CBGE" := "Classes Base do Mapeamento Topográfico em Grandes Escalas",
         "LAZ" := "Cultura e Lazer", "EDF" := "Edificações", "EMU" := "Estrutura de Mobilidade Urbana" ]

  /** The part of a table name after its first `_` (all of it when there is none). */
  function TableTail(table: String): String {
    SliceFrom(table, Find(table, '_') + 1)
  }

  /**
   * `names1`: the tail, with `_` read as word breaks, in title case, joined
   * again by `_`; both one-character replacements map characters in place.
   */
  function Names1(table: String): (name1: String)
    ensures name1 == MapChar(Title(MapChar(TableTail(table), '_', ' ')), ' ', '_')
  {
    var spaced := Replace(TableTail(table), "_", " ");
    ReplaceOneChar(TableTail(table), '_', ' ');
    ReplaceOneChar(Title(spaced), ' ', '_');
    Replace(Title(spaced), " ", "_")
  }

  /** `names2`: the layer name GeoServer shows, the project prefix first. */
  function Names2(prefix: String, name1: String): String {
    prefix + "_" + name1
  }

  /** `item[-1] in 'PLA'`: the name ends in a geometry letter. */
  predicate EndsInGeometry(name1: String) {
    name1 != [] && Last(name1) in "PLA"
  }

  /** The title of one name; Python raises IndexError on `item[-1]` for an empty name. */
  function TitleOf(prefix: String, name1: String): Result<String, CcarError> {
    if name1 == [] then Failure(IndexError)
    else if EndsInGeometry(name1) then
      assert [Last(name1)] in Geometries;
      Success(prefix + " " + SliceTo(Replace(name1, "_", " "), -1) + Geometries[[Last(name1)]])
    else
      Success(prefix + " " + Replace(name1, "_", " "))
  }

  /** The category code: the table name up to its first `_`, upper-cased (`table[:-1]` when there is none). */
  function CategoryKey(table: String): String {
    Upper(SliceTo(table, Find(table, '_')))
  }

  /** The class name in the abstract: `names1` up to its last `_`. */
  function ClassName(name1: String): String {
    SliceTo(name1, RFind(name1, '_'))
  }

  /**
   * The abstract of one table, evaluated left to right as Python does: the
   * geometry lookup (KeyError on an unknown letter) comes before the
   * category lookup (KeyError on an unknown code).
   */
  function Abstract(prefix: String, table: String, name1: String): Result<String, CcarError> {
    if name1 == [] then Failure(IndexError)
    else
      var g := [Last(name1)];
      if g !in Geometries then Failure(KeyError(g))
      else
        var key := CategoryKey(table);
        if key !in Categories then Failure(KeyError(key))
        else
          Success("Camada representando a classe [" + ClassName(name1) + "] de primitiva geométrica ["
                  + g + ":" + Slice(Geometries[g], 1, -1) + "] da categoria [" + key + ":" + Categories[key]
                  + "] da EDGV versão [3.0] para o projeto [" + prefix
                  + "] da instituição/provedor [IBGE/Cartografia].")
  }

  function Spaces(n: nat): String {
    seq(n, _ => ' ')
  }

  /** The feature-type XML of one table, with the source's line breaks and indentation. */
  function Payload(name2: String, table: String, abstractText: String, title: String): String {
    "<featureType>\n"
    + Spaces(24) + "<name>" + name2 + "</name> \n"
    + Spaces(24) + "<nativeName>" + table + "</nativeName>\n"
    + Spaces(24) + "<abstract>" + abstractText + "</abstract> \n"
    + Spaces(24) + "<title>" + title + "</title>\n"
    + Spaces(24) + "</featureType>"
  }

  /** The `names1` comprehension. */
  function NamesOf(tables: seq<String>): (names1: seq<String>)
    ensures |names1| == |tables|
  {
    seq(|tables|, i requires 0 <= i < |tables| => Names1(tables[i]))
  }

  /** The title of each name, before the `titles` comprehension raises at the first failure. */
  function TitleResults(prefix: String, names1: seq<String>): (rs: seq<Result<String, CcarError>>)
    ensures |rs| == |names1|
  {
    seq(|names1|, i requires 0 <= i < |names1| => TitleOf(prefix, names1[i]))
  }

  /** The payload of table `i` once its title is known. */
  function PayloadAt(prefix: String, tables: seq<String>, titles: seq<String>, i: nat): Result<String, CcarError>
    requires i < |tables| && i < |titles|
  {
    var name1 := Names1(tables[i]);
    match Abstract(prefix, tables[i], name1)
    case Failure(e) => Failure(e)
    case Success(abstractText) => Success(Payload(Names2(prefix, name1), tables[i], abstractText, titles[i]))
  }

  /** The payload of each table, before the loop raises at the first failure. */
  function PayloadResults(prefix: String, tables: seq<String>, titles: seq<String>): (rs: seq<Result<String, CcarError>>)
    requires |titles| == |tables|
    ensures |rs| == |tables|
  {
    seq(|tables|, i requires 0 <= i < |tables| => PayloadAt(prefix, tables, titles, i))
  }

  /** The names, titles and payloads of the whole schema; the titles of all tables come first. */
  function SchemaPayloads(prefix: String, tables: seq<String>): Result<seq<String>, CcarError> {
    var titleResults := TitleResults(prefix, NamesOf(tables));
    match Collect(titleResults)
    case Failure(e) => Failure(e)
    case Success(titles) =>
      CollectSpec(titleResults);
      Collect(PayloadResults(prefix, tables, titles))
  }

  /**
   * The naming step of `processAlgorithm`: computes `names1`, `names2`,
   * `titles`, then appends one payload per table; any exception ends the
   * run before a single POST.
   */
  method BuildPayloads(prefix: String, schemaTables: seq<String>) returns (r: Result<seq<String>, CcarError>)
    ensures r == SchemaPayloads(prefix, schemaTables)
  {
    var names1 := NamesOf(schemaTables);
    var names2 := seq(|names1|, i requires 0 <= i < |names1| => Names2(prefix, names1[i]));
    var titleResults := TitleResults(prefix, names1);
    var titlesResult := Collect(titleResults);
    if titlesResult.Failure? {
      return Failure(titlesResult.error);
    }
    var titles := titlesResult.value;
    CollectSpec(titleResults);
    ghost var rs := PayloadResults(prefix, schemaTables, titles);
    var payloads: seq<String> := [];
    for i := 0 to |names1|
      invariant Collect(rs[..i]) == Success(payloads)
    {
      CollectStep(rs, i);
      var abstractText := Abstract(prefix, schemaTables[i], names1[i]);
      if abstractText.Failure? {
        assert rs[i] == Failure(abstractText.error);
        CollectStopsAt(rs, i);
        return Failure(abstractText.error);
      }
      var a := Payload(names2[i], schemaTables[i], abstractText.value, titles[i]);
      assert rs[i] == Success(a);
      payloads := payloads + [a];
    }
    CollectAll(rs);
    r := Success(payloads);
  }

  /** The last letter and the category code of a table that the abstract can look up. */
  predicate WellNamed(table: String) {
    var name1 := Names1(table);
    name1 != [] && [Last(name1)] in Geometries && CategoryKey(table) in Categories
  }

  /** Once the titles are known, every payload is built exactly when every table is well named. */
  lemma PayloadsSucceed(prefix: String, tables: seq<String>, titles: seq<String>)
    requires |titles| == |tables|
    ensures Collect(PayloadResults(prefix, tables, titles)).Success? <==>
      forall k :: 0 <= k < |tables| ==> WellNamed(tables[k])
  {
    var rs := PayloadResults(prefix, tables, titles);
    CollectSpec(rs);
    forall k | 0 <= k < |tables| ensures rs[k].Success? <==> WellNamed(tables[k]) {
      AbstractSucceeds(prefix, tables[k]);
    }
  }

  /** The whole schema goes through exactly when every table is well named. */
  lemma SchemaPayloadsSucceed(prefix: String, tables: seq<String>)
    ensures SchemaPayloads(prefix, tables).Success? <==> forall k :: 0 <= k < |tables| ==> WellNamed(tables[k])
  {
    var titleResults := TitleResults(prefix, NamesOf(tables));
    CollectSpec(titleResults);
    match Collect(titleResults)
    case Failure(_) =>
      var k :| 0 <= k < |titleResults| && titleResults[k].Failure?;
      assert !WellNamed(tables[k]);
    case Success(titles) =>
      assert SchemaPayloads(prefix, tables) == Collect(PayloadResults(prefix, tables, titles));
      PayloadsSucceed(prefix, tables, titles);
  }

  /** The payload of one table on its own: its title, its abstract, then the XML. */
  function TablePayload(prefix: String, table: String): Result<String, CcarError> {
    var name1 := Names1(table);
    match TitleOf(prefix, name1)
    case Failure(e) => Failure(e)
    case Success(title) =>
      match Abstract(prefix, table, name1)
      case Failure(e) => Failure(e)
      case Success(abstractText) => Success(Payload(Names2(prefix, name1), table, abstractText, title))
  }

  /** With every title known and every table well named, each payload is the one its table gives on its own. */
  lemma PayloadsContent(prefix: String, tables: seq<String>, titles: seq<String>)
    requires |titles| == |tables|
    requires forall k :: 0 <= k < |tables| ==>
      WellNamed(tables[k]) && TitleOf(prefix, Names1(tables[k])) == Success(titles[k])
    ensures Collect(PayloadResults(prefix, tables, titles)).Success?
    ensures |Collect(PayloadResults(prefix, tables, titles)).value| == |tables|
    ensures forall k :: 0 <= k < |tables| ==>
      Success(Collect(PayloadResults(prefix, tables, titles)).value[k]) == TablePayload(prefix, tables[k])
  {
    var rs := PayloadResults(prefix, tables, titles);
    PayloadsSucceed(prefix, tables, titles);
    CollectSpec(rs);
    forall k | 0 <= k < |tables|
      ensures Success(Collect(rs).value[k]) == TablePayload(prefix, tables[k])
    {
      assert rs[k] == PayloadAt(prefix, tables, titles, k);
    }
  }

  /**
   * A well-named schema gives one payload per table, in table order, each
   * the one its table gives on its own.
   */
  lemma SchemaPayloadsContent(prefix: String, tables: seq<String>)
    requires forall k :: 0 <= k < |tables| ==> WellNamed(tables[k])
    ensures SchemaPayloads(prefix, tables).Success?
    ensures |SchemaPayloads(prefix, tables).value| == |tables|
    ensures forall k :: 0 <= k < |tables| ==> Success(SchemaPayloads(prefix, tables).value[k]) == TablePayload(prefix, tables[k])
  {
    var titleResults := TitleResults(prefix, NamesOf(tables));
    CollectSpec(titleResults);
    assert Collect(titleResults).Success? by {
      forall k | 0 <= k < |titleResults| ensures titleResults[k].Success? {
        assert Names1(tables[k]) != [];
      }
    }
    var titles := Collect(titleResults).value;
    assert SchemaPayloads(prefix, tables) == Collect(PayloadResults(prefix, tables, titles));
    forall k | 0 <= k < |tables|
      ensures TitleOf(prefix, Names1(tables[k])) == Success(titles[k])
    {
      assert titleResults[k] == TitleOf(prefix, Names1(tables[k]));
    }
    PayloadsContent(prefix, tables, titles);
  }

  /** The abstract of a table can be built exactly when the table is well named. */
  lemma AbstractSucceeds(prefix: String, table: String)
    ensures Abstract(prefix, table, Names1(table)).Success? <==> WellNamed(table)
  {
  }

  /** An empty name anywhere raises IndexError, even after a table whose lookups would fail. */
  lemma EmptyNameRaisesFirst(prefix: String, tables: seq<String>, k: nat)
    requires k < |tables| && Names1(tables[k]) == []
    requires forall j :: 0 <= j < k ==> Names1(tables[j]) != []
    ensures SchemaPayloads(prefix, tables) == Failure(IndexError)
  {
    var titleResults := TitleResults(prefix, NamesOf(tables));
    CollectFirstError(titleResults, k);
  }

  /** With the titles known, the payload loop raises the KeyError of the first table that is not well named. */
  lemma PayloadsFirstError(prefix: String, tables: seq<String>, titles: seq<String>, k: nat)
    requires |titles| == |tables|
    requires k < |tables| && Names1(tables[k]) != [] && !WellNamed(tables[k])
    requires forall j :: 0 <= j < k ==> WellNamed(tables[j])
    ensures Collect(PayloadResults(prefix, tables, titles)) == Failure(KeyError(
      if [Last(Names1(tables[k]))] !in Geometries then [Last(Names1(tables[k]))] else CategoryKey(tables[k])))
  {
    var rs := PayloadResults(prefix, tables, titles);
    forall j | 0 <= j < k ensures rs[j].Success? {
      AbstractSucceeds(prefix, tables[j]);
    }
    assert rs[k] == PayloadAt(prefix, tables, titles, k);
    CollectFirstError(rs, k);
  }

  /**
   * When no name is empty, the run raises the KeyError of the first table
   * that is not well named: its geometry letter, or else its category code.
   */
  lemma FirstKeyErrorRaised(prefix: String, tables: seq<String>, k: nat)
    requires forall j :: 0 <= j < |tables| ==> Names1(tables[j]) != []
    requires k < |tables| && !WellNamed(tables[k])
    requires forall j :: 0 <= j < k ==> WellNamed(tables[j])
    ensures SchemaPayloads(prefix, tables) == Failure(KeyError(
      if [Last(Names1(tables[k]))] !in Geometries then [Last(Names1(tables[k]))] else CategoryKey(tables[k])))
  {
    var titleResults := TitleResults(prefix, NamesOf(tables));
    CollectSpec(titleResults);
    assert Collect(titleResults).Success? by {
      forall j | 0 <= j < |titleResults| ensures titleResults[j].Success? {
        assert Names1(tables[j]) != [];
      }
    }
    var titles := Collect(titleResults).value;
    assert SchemaPayloads(prefix, tables) == Collect(PayloadResults(prefix, tables, titles));
    PayloadsFirstError(prefix, tables, titles, k);
  }

  /** `Names1` keeps the length of the tail, has no spaces, and marks word breaks with `_`. */
  lemma Names1Spec(table: String)
    ensures |Names1(table)| == |TableTail(table)|
    ensures ' ' !in Names1(table)
    ensures forall i :: 0 <= i < |TableTail(table)| ==>
      (Names1(table)[i] == '_' <==> TableTail(table)[i] in "_ ")
    ensures forall i :: 0 <= i < |TableTail(table)| && IsCased(TableTail(table)[i]) ==>
      Names1(table)[i] == if i == 0 || !IsCased(TableTail(table)[i - 1])
                          then UpperChar(TableTail(table)[i]) else LowerChar(TableTail(table)[i])
    ensures forall i :: 0 <= i < |TableTail(table)| && !IsCased(TableTail(table)[i]) && TableTail(table)[i] !in "_ " ==>
      Names1(table)[i] == TableTail(table)[i]
  {
    var tail := TableTail(table);
    var m := MapChar(tail, '_', ' ');
    assert forall i :: 0 <= i < |m| ==> (IsCased(m[i]) <==> IsCased(tail[i]));
    var t := Title(m);
    TitleKeepsCased(m);
    assert forall i :: 0 <= i < |t| ==> (t[i] == ' ' <==> m[i] == ' ');
    var r := MapChar(t, ' ', '_');
    assert Names1(table) == r;
    forall i | 0 <= i < |tail|
      ensures r[i] == '_' <==> tail[i] in "_ "
    {
      if IsCased(m[i]) {
        assert IsCased(t[i]);
      } else {
        assert t[i] == m[i];
      }
    }
    forall i | 0 <= i < |tail| && IsCased(tail[i])
      ensures r[i] == if i == 0 || !IsCased(tail[i - 1]) then UpperChar(tail[i]) else LowerChar(tail[i])
    {
      assert m[i] == tail[i];
      assert r[i] == t[i];
    }
    forall i | 0 <= i < |tail| && !IsCased(tail[i]) && tail[i] !in "_ "
      ensures r[i] == tail[i]
    {
      assert m[i] == tail[i];
      assert r[i] == t[i];
    }
  }

  /** `find` returns -1 without a `_`, so the tail is then the whole table name. */
  lemma TableTailSpec(table: String)
    ensures '_' !in table ==> TableTail(table) == table
    ensures '_' in table ==> TableTail(table) == table[Find(table, '_') + 1..] && '_' !in table[..Find(table, '_')]
  {
  }

  /**
   * The category code the abstractText looks up: the upper-cased text before the
   * first `_`, or the name without its last character when there is no `_`.
   */
  lemma CategoryKeySpec(table: String)
    ensures '_' in table ==> CategoryKey(table) == Upper(Before(table, '_'))
    ensures '_' !in table && table != [] ==> CategoryKey(table) == Upper(table[..|table| - 1])
    ensures '_' !in table && table == [] ==> CategoryKey(table) == []
  {
  }

  /** The class name is `names1` up to its last `_`, or without its last character when there is none. */
  lemma ClassNameSpec(name1: String)
    ensures '_' in name1 ==> ClassName(name1) == name1[..RFind(name1, '_')] && '_' !in name1[RFind(name1, '_') + 1..]
    ensures '_' !in name1 && name1 != [] ==> ClassName(name1) == name1[..|name1| - 1]
  {
  }

  /** Every layer name starts with the project prefix and an `_`. */
  lemma Names2Prefix(prefix: String, name1: String)
    ensures StartsWith(Names2(prefix, name1), prefix + "_")
    ensures Names2(prefix, name1)[|prefix| + 1..] == name1
  {
  }

  /** A title ending in a geometry letter trades the letter for its label; any other title keeps the whole name. */
  lemma TitleOfSpec(prefix: String, name1: String)
    requires name1 != []
    ensures Last(name1) == 'P' ==> TitleOf(prefix, name1) == Success(prefix + " " + MapChar(name1, '_', ' ')[..|name1| - 1] + "(Ponto)")
    ensures Last(name1) == 'L' ==> TitleOf(prefix, name1) == Success(prefix + " " + MapChar(name1, '_', ' ')[..|name1| - 1] + "(Linha)")
    ensures Last(name1) == 'A' ==> TitleOf(prefix, name1) == Success(prefix + " " + MapChar(name1, '_', ' ')[..|name1| - 1] + "(Área)")
    ensures Last(name1) !in "PLA" ==> TitleOf(prefix, name1) == Success(prefix + " " + MapChar(name1, '_', ' '))
  {
    ReplaceOneChar(name1, '_', ' ');
  }

  /** The geometry letters and their labels without the parentheses the abstract drops. */
  lemma GeometryLabels()
    ensures Geometries.Keys == {"P", "L", "A"}
    ensures Slice(Geometries["P"], 1, -1) == "Ponto"
    ensures Slice(Geometries["L"], 1, -1) == "Linha"
    ensures Slice(Geometries["A"], 1, -1) == "Área"
    ensures forall name1 :: EndsInGeometry(name1) <==> name1 != [] && [Last(name1)] in Geometries
  {
    assert Slice(Geometries["P"], 1, -1) == "(Ponto)"[1..6];
    assert Slice(Geometries["L"], 1, -1) == "(Linha)"[1..6];
    assert Slice(Geometries["A"], 1, -1) == "(Área)"[1..5];
  }

  /** `HDV` and `ROD` share one category name, and lookups are case-sensitive. */
  lemma CategoryTable()
    ensures Categories["HDV"] == Categories["ROD"] == "Subsistema Rodoviário"
    ensures "tra" !in Categories && "TRA" in Categories
  {
  }

  /**
   * A table named `<code>_<rest>` (such as `tra_trecho_rodoviario_l`) has
   * `rest` as its tail and the upper-cased code as its category key.
   */
  lemma CodedTable(code: String, rest: String)
    requires '_' !in code
    ensures TableTail(code + "_" + rest) == rest
    ensures CategoryKey(code + "_" + rest) == Upper(code)
  {
    var table := code + "_" + rest;
    assert table[..|code|] == code;
    FindIs(table, '_', |code|);
    assert table[|code| + 1..] == rest;
  }

  /** A name ending in `_` and a geometry letter: the class name drops the letter. */
  lemma ClassNameOfGeometryName(base: String, g: char)
    requires g != '_'
    ensures ClassName(base + "_" + [g]) == base
  {
    var name1 := base + "_" + [g];
    assert name1[|base| + 1..] == [g];
    RFindIs(name1, '_', |base|);
    assert name1[..|base|] == base;
  }

  /** The title of such a name: the words of the base, then the geometry label in place of the letter. */
  lemma TitleOfGeometryName(prefix: String, base: String, g: char)
    requires g in "PLA"
    ensures TitleOf(prefix, base + "_" + [g]) == Success(prefix + " " + MapChar(base, '_', ' ') + " " + Geometries[[g]])
  {
    var name1 := base + "_" + [g];
    assert Last(name1) == g && EndsInGeometry(name1);
    ReplaceOneChar(name1, '_', ' ');
    var m := MapChar(name1, '_', ' ');
    var words := MapChar(base, '_', ' ');
    assert SliceTo(m, -1) == m[..|m| - 1] == words + " ";
    var geometryLabel := Geometries[[g]];
    assert TitleOf(prefix, name1) == Success(prefix + " " + (words + " ") + geometryLabel);
    assert prefix + " " + (words + " ") + geometryLabel == prefix + " " + words + " " + geometryLabel;
  }

  /** The POST outcome of one payload: the response text, or `None` when `requests.post` raised. */
  type Response = Option<String>

  /** The layers the log reports as published: those whose POST answered with an empty body. */
  function Published(names2: seq<String>, responses: seq<Response>): seq<String>
    requires |names2| == |responses|
  {
    if names2 == [] then []
    else
      var n := |names2| - 1;
      Published(names2[..n], responses[..n]) + (if responses[n] == Some("") then [names2[n]] else [])
  }

  /**
   * The publication loop: one POST of every payload, in order, to the same
   * URL; an exception is swallowed and the loop goes on.
   */
  method Publish(url: String, payloads: seq<String>, names2: seq<String>, responses: seq<Response>)
    returns (posts: seq<(String, String)>, published: seq<String>)
    requires |payloads| == |names2| == |responses|
    ensures |posts| == |payloads|
    ensures forall i :: 0 <= i < |posts| ==> posts[i] == (url, payloads[i])
    ensures published == Published(names2, responses)
  {
    posts := [];
    published := [];
    for i := 0 to |payloads|
      invariant |posts| == i
      invariant forall k :: 0 <= k < i ==> posts[k] == (url, payloads[k])
      invariant published == Published(names2[..i], responses[..i])
    {
      assert names2[..i + 1][..i] == names2[..i];
      assert responses[..i + 1][..i] == responses[..i];
      posts := posts + [(url, payloads[i])];
      if responses[i] == Some("") {
        published := published + [names2[i]];
      }
    }
    assert names2[..|names2|] == names2;
    assert responses[..|responses|] == responses;
  }

  /** A layer is reported as published exactly when its POST answered with an empty body. */
  lemma {:induction false} PublishedSpec(names2: seq<String>, responses: seq<Response>, name: String)
    requires |names2| == |responses|
    ensures name in Published(names2, responses) <==>
      exists i :: 0 <= i < |names2| && names2[i] == name && responses[i] == Some("")
  {
    if names2 != [] {
      var n := |names2| - 1;
      PublishedSpec(names2[..n], responses[..n], name);
      if name in Published(names2[..n], responses[..n]) {
        var i :| 0 <= i < n && names2[..n][i] == name && responses[..n][i] == Some("");
        assert names2[i] == name && responses[i] == Some("");
      }
    }
  }
}
