/**
 * The rename of the layers of a store: every feature-type name and title has
 * each occurrence of a search string replaced (Python `str.replace`), and one
 * PUT per feature type, addressed by its ORIGINAL name, carries the new name
 * and title. The names listed by the store and the title fetched for each
 * name are inputs.
 */
module RenameLayers {
  import opened PyStr

  /** The REST resource of one feature type (where its title is read and its PUT is sent). */
  function ResourceUrl(url: String, name: String): String {
    url + "/" + name
  }

  /** `[s.replace(find, replace) for s in xs]`. */
  function RenameAll(xs: seq<String>, find: String, replace: String): (ys: seq<String>)
    ensures |ys| == |xs|
    ensures forall i :: 0 <= i < |xs| ==> ys[i] == Replace(xs[i], find, replace)
  {
    seq(|xs|, i requires 0 <= i < |xs| => Replace(xs[i], find, replace))
  }

  /** The XML body of one PUT, with the source's line breaks and indentation. */
  function RenamePayload(name: String, title: String): String {
    "<featureType>\n"
    + Spaces(20) + "<name>" + name + "</name>\n"
    + Spaces(20) + "<title>" + title + "</title>\n"
    + Spaces(20) + "</featureType>"
  }

  function Spaces(n: nat): String {
    seq(n, _ => ' ')
  }

  datatype Put = Put(url: String, body: String)

  /**
   * The payload loop and the PUT loop of `processAlgorithm`: `titles[i]` is
   * the title GeoServer returned for `names[i]`. The PUT for feature type `i`
   * goes to its original name and carries its renamed name and title.
   */
  method RenameStoreLayers(url: String, names: seq<String>, titles: seq<String>, find: String, replace: String)
    returns (puts: seq<Put>)
    requires |titles| == |names|
    ensures |puts| == |names|
    ensures forall i :: 0 <= i < |names| ==>
      puts[i] == Put(ResourceUrl(url, names[i]),
                     RenamePayload(Replace(names[i], find, replace), Replace(titles[i], find, replace)))
  {
    var namesRenamed := RenameAll(names, find, replace);
    var titlesRenamed := RenameAll(titles, find, replace);
    var payloads: seq<String> := [];
    for i := 0 to |namesRenamed|
      invariant |payloads| == i
      invariant forall k :: 0 <= k < i ==> payloads[k] == RenamePayload(namesRenamed[k], titlesRenamed[k])
    {
      var a := RenamePayload(namesRenamed[i], titlesRenamed[i]);
      payloads := payloads + [a];
    }
    puts := [];
    for i := 0 to |payloads|
      invariant |puts| == i
      invariant forall k :: 0 <= k < i ==> puts[k] == Put(ResourceUrl(url, names[k]), payloads[k])
    {
      puts := puts + [Put(ResourceUrl(url, names[i]), payloads[i])];
    }
  }

  /** A feature type whose name and title do not contain the search string is PUT back unchanged. */
  lemma UntouchedLayerKeepsNames(name: String, title: String, find: String, replace: String)
    requires !Contains(name, find) && !Contains(title, find)
    ensures RenamePayload(Replace(name, find, replace), Replace(title, find, replace)) == RenamePayload(name, title)
  {
    ReplaceAbsent(name, find, replace);
    ReplaceAbsent(title, find, replace);
  }

  /** Replacing a string by itself renames nothing. */
  lemma SameStringRenamesNothing(xs: seq<String>, find: String)
    ensures RenameAll(xs, find, find) == xs
  {
    forall i | 0 <= i < |xs| ensures Replace(xs[i], find, find) == xs[i] {
      ReplaceSame(xs[i], find);
    }
  }

  /** The new name grows by the length difference once per occurrence of the search string. */
  lemma RenamedLength(name: String, find: String, replace: String)
    requires find != []
    ensures |Replace(name, find, replace)| == |name| + Count(name, find) * (|replace| - |find|)
  {
    ReplaceLength(name, find, replace);
  }

  /**
   * An empty search string inserts the replacement before every character
   * and at the end, so every name changes when the replacement is not empty.
   */
  lemma EmptyFindInsertsEverywhere(name: String, replace: String)
    ensures |Replace(name, "", replace)| == |name| + (|name| + 1) * |replace|
    ensures Replace(name, "", "") == name
  {
    ReplaceEmptyLength(name, replace);
    ReplaceEmptyNothing(name);
  }

  /** An empty search string between two letters: `'ab'.replace('', '-')` is `'-a-b-'`. */
  lemma EmptyFindExample()
    ensures Replace("ab", "", "-") == "-a-b-"
  {
  }

  /** The rename is applied left to right without overlaps: `'aaa'.replace('aa', 'b')` is `'ba'`. */
  lemma NonOverlappingExample()
    ensures Replace("aaa", "aa", "b") == "ba"
  {
  }
}
