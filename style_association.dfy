/**
 * The style matcher of `StyleAssociator`: every feature type of a store is
 * associated with the longest style name of a workspace that is a substring
 * of the feature-type name (the later one in the style list on a tie), or
 * with nothing; then one PUT per associated layer sets its default style.
 * The feature-type and style lists that the class fetches over REST are
 * inputs here.
 */
module StyleAssociation {
  import opened Wrappers
  import opened PyStr
  import opened PyDict
  import GeoserverUrl

  /**
   * `styles[k]` is the style the matcher picks for `featuretype`: it is a
   * substring of the name, no matching style is longer, and every matching
   * style after it in the list is strictly shorter.
   */
  ghost predicate IsBestIndex(featuretype: String, styles: seq<String>, k: int) {
    && 0 <= k < |styles|
    && IsSubstring(styles[k], featuretype)
    && (forall j :: 0 <= j < |styles| && IsSubstring(styles[j], featuretype) ==> |styles[j]| <= |styles[k]|)
    && (forall j :: k < j < |styles| && IsSubstring(styles[j], featuretype) ==> |styles[j]| < |styles[k]|)
  }

  /**
   * `assoc` is the value the matcher stores for `featuretype`: `None` when no
   * style is a substring of it, otherwise the style at the best index.
   */
  ghost predicate IsAssociation(featuretype: String, styles: seq<String>, assoc: Option<String>) {
    match assoc
    case None => forall j :: 0 <= j < |styles| ==> !IsSubstring(styles[j], featuretype)
    case Some(style) => exists k :: IsBestIndex(featuretype, styles, k) && styles[k] == style
  }

  /** At most one index is the best one. */
  lemma BestIndexUnique(featuretype: String, styles: seq<String>, k1: int, k2: int)
    requires IsBestIndex(featuretype, styles, k1) && IsBestIndex(featuretype, styles, k2)
    ensures k1 == k2
  {
  }

  /** The association is determined by the feature type and the style list. */
  lemma AssociationUnique(featuretype: String, styles: seq<String>, a1: Option<String>, a2: Option<String>)
    requires IsAssociation(featuretype, styles, a1) && IsAssociation(featuretype, styles, a2)
    ensures a1 == a2
  {
    if a1.Some? && a2.Some? {
      var k1 :| IsBestIndex(featuretype, styles, k1) && styles[k1] == a1.value;
      var k2 :| IsBestIndex(featuretype, styles, k2) && styles[k2] == a2.value;
      BestIndexUnique(featuretype, styles, k1, k2);
    }
  }

  /** A chosen style is a substring of the feature type and at least as long as every matching style. */
  lemma AssociationIsLongestSubstring(featuretype: String, styles: seq<String>, style: String)
    requires IsAssociation(featuretype, styles, Some(style))
    ensures IsSubstring(style, featuretype)
    ensures forall j :: 0 <= j < |styles| && IsSubstring(styles[j], featuretype) ==> |styles[j]| <= |style|
  {
  }

  /**
   * The inner loop of `build_association_dictionary`: keeps the styles that
   * match with a length at least the current one, and returns the last kept.
   */
  method AssociatedStyle(featuretype: String, styles: seq<String>) returns (assoc: Option<String>)
    ensures IsAssociation(featuretype, styles, assoc)
  {
    var assocStyles: seq<String> := [];
    var curLength := 0;
    ghost var best := -1;
    for i := 0 to |styles|
      invariant assocStyles == [] <==> best == -1
      invariant best == -1 ==> curLength == 0
      invariant best == -1 ==> forall j :: 0 <= j < i ==> !IsSubstring(styles[j], featuretype)
      invariant best != -1 ==> IsBestIndex(featuretype, styles[..i], best)
      invariant best != -1 ==> assocStyles[|assocStyles| - 1] == styles[best] && curLength == |styles[best]|
    {
      ContainsIsSubstring(featuretype, styles[i]);
      if Contains(featuretype, styles[i]) && |styles[i]| >= curLength {
        assocStyles := assocStyles + [styles[i]];
        curLength := |styles[i]|;
        best := i;
      }
    }
    assert styles[..|styles|] == styles;
    if assocStyles != [] {
      assoc := Some(assocStyles[|assocStyles| - 1]);
    } else {
      assoc := None;
    }
  }

  /** Every feature type of `featuretypes` has an entry in `d` holding its association. */
  ghost predicate AllAssociated(d: Dict<String, Option<String>>, featuretypes: seq<String>, styles: seq<String>) {
    forall ft :: ft in featuretypes ==> Get(d, ft).Some? && IsAssociation(ft, styles, Get(d, ft).value)
  }

  /** Storing the association of one more feature type keeps the keys in first-seen order and every association. */
  lemma AssociateStep(d: Dict<String, Option<String>>, featuretypes: seq<String>, styles: seq<String>,
                      featuretype: String, assoc: Option<String>)
    requires Keys(d) == Dedup(featuretypes) && AllAssociated(d, featuretypes, styles)
    requires IsAssociation(featuretype, styles, assoc)
    ensures Keys(Set(d, featuretype, assoc)) == Dedup(featuretypes + [featuretype])
    ensures AllAssociated(Set(d, featuretype, assoc), featuretypes + [featuretype], styles)
  {
    SetKeysDedup(d, featuretypes, featuretype, assoc);
    var d' := Set(d, featuretype, assoc);
    forall ft | ft in featuretypes + [featuretype]
      ensures Get(d', ft).Some? && IsAssociation(ft, styles, Get(d', ft).value)
    {
      if ft == featuretype {
        SetGetSame(d, featuretype, assoc);
      } else {
        SetGetOther(d, featuretype, assoc, ft);
        assert ft in featuretypes;
      }
    }
  }

  /**
   * `build_association_dictionary`: one entry per distinct feature type, in
   * feature-type order, whose value is that feature type's association.
   */
  method BuildAssociationDictionary(featuretypes: seq<String>, styles: seq<String>)
    returns (assocDict: Dict<String, Option<String>>)
    ensures Keys(assocDict) == Dedup(featuretypes)
    ensures Distinct(Keys(assocDict))
    ensures forall ft :: ft in Keys(assocDict) <==> ft in featuretypes
    ensures forall ft :: ft in featuretypes ==>
      Get(assocDict, ft).Some? && IsAssociation(ft, styles, Get(assocDict, ft).value)
  {
    assocDict := [];
    for i := 0 to |featuretypes|
      invariant Keys(assocDict) == Dedup(featuretypes[..i])
      invariant AllAssociated(assocDict, featuretypes[..i], styles)
    {
      var featuretype := featuretypes[i];
      var assocStyle := AssociatedStyle(featuretype, styles);
      AssociateStep(assocDict, featuretypes[..i], styles, featuretype, assocStyle);
      assocDict := Set(assocDict, featuretype, assocStyle);
      assert featuretypes[..i + 1] == featuretypes[..i] + [featuretype];
    }
    assert featuretypes[..|featuretypes|] == featuretypes;
    DedupSpec(featuretypes);
  }

  /** The PUT request that sets a layer's default style. */
  datatype StylePut = StylePut(url: String, body: String)

  function Spaces(n: nat): String {
    seq(n, _ => ' ')
  }

  /** `geoserver_url + '/rest/layers/' + layers_workspace + ':'`, with the normalised base URL. */
  function LayersUrlPiece(geoserverUrl: String, layersWorkspace: String): String {
    GeoserverUrl.BaseUrl(geoserverUrl) + "/rest/layers/" + layersWorkspace + ":"
  }

  /** The JSON body that names `styles_workspace:style` as the default style, with the source's layout. */
  function StyleBody(stylesWorkspace: String, style: String): String {
    "{\n"
    + Spaces(23) + "\"layer\":{\n"
    + Spaces(26) + "\"defaultStyle\":{\n"
    + Spaces(29) + "\"name\":\"" + stylesWorkspace + ":" + style + "\"\n"
    + Spaces(26) + "}\n"
    + Spaces(23) + "}\n"
    + Spaces(20) + "}"
  }

  /** The PUTs for the entries of the dict, in order, skipping the `None` ones. */
  function PutsFor(urlPiece: String, stylesWorkspace: String, assocDict: Dict<String, Option<String>>): seq<StylePut> {
    if assocDict == [] then []
    else
      var last := assocDict[|assocDict| - 1];
      PutsFor(urlPiece, stylesWorkspace, assocDict[..|assocDict| - 1])
      + match last.value
        case None => []
        case Some(style) => [StylePut(urlPiece + last.key, StyleBody(stylesWorkspace, style))]
  }

  /**
   * `associate_styles`: walks the dict in order and issues one PUT to
   * `layers_url_piece + layer` for each layer that has a style.
   */
  method AssociateStyles(geoserverUrl: String, layersWorkspace: String, stylesWorkspace: String,
                         assocDict: Dict<String, Option<String>>)
    returns (puts: seq<StylePut>)
    ensures puts == PutsFor(LayersUrlPiece(geoserverUrl, layersWorkspace), stylesWorkspace, assocDict)
  {
    var layersUrlPiece := LayersUrlPiece(geoserverUrl, layersWorkspace);
    puts := [];
    for i := 0 to |assocDict|
      invariant puts == PutsFor(layersUrlPiece, stylesWorkspace, assocDict[..i])
    {
      assert assocDict[..i + 1][..i] == assocDict[..i];
      var layer, style := assocDict[i].key, assocDict[i].value;
      if style.None? {
        continue;
      }
      var body := StyleBody(stylesWorkspace, style.value);
      puts := puts + [StylePut(layersUrlPiece + layer, body)];
    }
    assert assocDict[..|assocDict|] == assocDict;
  }

  lemma PrefixCancel(p: String, a: String, b: String)
    requires p + a == p + b
    ensures a == b
  {
    assert a == (p + a)[|p|..];
    assert b == (p + b)[|p|..];
  }

  /**
   * A PUT goes to `urlPiece + layer` exactly when the dict associates the
   * layer with a style, and its body names that style.
   */
  lemma {:induction false} PutsForLayer(urlPiece: String, stylesWorkspace: String,
                                        assocDict: Dict<String, Option<String>>, layer: String, body: String)
    requires Distinct(Keys(assocDict))
    ensures StylePut(urlPiece + layer, body) in PutsFor(urlPiece, stylesWorkspace, assocDict)
      <==> Get(assocDict, layer).Some? && Get(assocDict, layer).value.Some?
           && body == StyleBody(stylesWorkspace, Get(assocDict, layer).value.value)
  {
    if assocDict != [] {
      var n := |assocDict| - 1;
      var init, last := assocDict[..n], assocDict[n];
      assert assocDict == init + [last];
      assert Keys(assocDict) == Keys(init) + [last.key];
      assert Distinct(Keys(init));
      PutsForLayer(urlPiece, stylesWorkspace, init, layer, body);
      GetAppend(init, last, layer);
      if last.value.Some? && StylePut(urlPiece + layer, body) == StylePut(urlPiece + last.key, StyleBody(stylesWorkspace, last.value.value)) {
        PrefixCancel(urlPiece, layer, last.key);
      }
    }
  }

  /**
   * The whole association run: a layer of the store receives a PUT exactly
   * when some workspace style is a substring of its name, and the body then
   * names `styles_workspace:` followed by its association.
   */
  method AssociateLayersToWorkspaceStyles(geoserverUrl: String, layersWorkspace: String, stylesWorkspace: String,
                                          featuretypes: seq<String>, styles: seq<String>)
    returns (puts: seq<StylePut>)
    ensures forall ft, body :: ft in featuretypes ==>
      ((StylePut(LayersUrlPiece(geoserverUrl, layersWorkspace) + ft, body) in puts)
        <==> exists style :: IsAssociation(ft, styles, Some(style)) && body == StyleBody(stylesWorkspace, style))
    ensures forall ft :: ft in featuretypes ==>
      ((exists body :: StylePut(LayersUrlPiece(geoserverUrl, layersWorkspace) + ft, body) in puts)
        <==> exists j :: 0 <= j < |styles| && IsSubstring(styles[j], ft))
  {
    var assocDict := BuildAssociationDictionary(featuretypes, styles);
    puts := AssociateStyles(geoserverUrl, layersWorkspace, stylesWorkspace, assocDict);
    var piece := LayersUrlPiece(geoserverUrl, layersWorkspace);
    forall ft, body | ft in featuretypes
      ensures (StylePut(piece + ft, body) in puts)
        <==> exists style :: IsAssociation(ft, styles, Some(style)) && body == StyleBody(stylesWorkspace, style)
    {
      PutsForLayer(piece, stylesWorkspace, assocDict, ft, body);
      var a := Get(assocDict, ft).value;
      forall style | IsAssociation(ft, styles, Some(style)) ensures a == Some(style) {
        AssociationUnique(ft, styles, a, Some(style));
      }
    }
    forall ft | ft in featuretypes
      ensures (exists body :: StylePut(piece + ft, body) in puts)
        <==> exists j :: 0 <= j < |styles| && IsSubstring(styles[j], ft)
    {
      var a := Get(assocDict, ft).value;
      PutsForLayer(piece, stylesWorkspace, assocDict, ft, if a.Some? then StyleBody(stylesWorkspace, a.value) else []);
      if a.Some? {
        var k :| IsBestIndex(ft, styles, k) && styles[k] == a.value;
        assert StylePut(piece + ft, StyleBody(stylesWorkspace, a.value)) in puts;
      } else {
        forall body ensures StylePut(piece + ft, body) !in puts {
          PutsForLayer(piece, stylesWorkspace, assocDict, ft, body);
        }
      }
    }
  }

  /** An empty style name is a substring of every name, so no layer is left without a style. */
  lemma EmptyStyleMatchesAll(featuretype: String, styles: seq<String>)
    requires "" in styles
    ensures !IsAssociation(featuretype, styles, None)
  {
    var j :| 0 <= j < |styles| && styles[j] == "";
    assert OccursAt(featuretype, "", 0);
  }

  /** When the empty style is the only match, the association is `''`, not `None`. */
  lemma EmptyStyleOnlyMatch()
    ensures IsAssociation("roads", ["", "rivers"], Some(""))
  {
    var styles: seq<String> := ["", "rivers"];
    assert OccursAt("roads", "", 0);
    assert !IsSubstring("rivers", "roads");
    assert IsBestIndex("roads", styles, 0);
  }

  /** Among equally long matches the later style wins, so the result depends on the list order. */
  lemma TieBreakExamples()
    ensures IsAssociation("abc", ["ab", "bc"], Some("bc"))
    ensures IsAssociation("abc", ["bc", "ab"], Some("ab"))
  {
    assert OccursAt("abc", "ab", 0);
    assert OccursAt("abc", "bc", 1);
    assert IsBestIndex("abc", ["ab", "bc"], 1);
    assert IsBestIndex("abc", ["bc", "ab"], 1);
  }

  /** The longer of two matching styles wins regardless of its position. */
  lemma LongestWinsExample()
    ensures IsAssociation("roads_style_a", ["roads", "style_a"], Some("style_a"))
    ensures IsAssociation("roads_style_a", ["style_a", "roads"], Some("style_a"))
  {
    assert OccursAt("roads_style_a", "roads", 0);
    assert OccursAt("roads_style_a", "style_a", 6);
    assert IsBestIndex("roads_style_a", ["roads", "style_a"], 1);
    assert IsBestIndex("roads_style_a", ["style_a", "roads"], 0);
  }
}
