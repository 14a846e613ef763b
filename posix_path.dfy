/**
 * The parts of Python's `posixpath` the plugin relies on: `join` of two
 * components, `basename` and `splitext`, and the `*.sld` match that `glob`
 * applies to the entries of a folder.
 */
module PosixPath {
  import opened PyStr

  /** `os.path.join(a, b)`: an absolute `b` wins; otherwise a single `/` separates the two. */
  function Join(a: String, b: String): (r: String)
    ensures StartsWith(b, "/") ==> r == b
    ensures !StartsWith(b, "/") && (a == [] || EndsWith(a, "/")) ==> r == a + b
    ensures !StartsWith(b, "/") && a != [] && !EndsWith(a, "/") ==> r == a + "/" + b
  {
    if StartsWith(b, "/") then b
    else if a == "" || EndsWith(a, "/") then a + b
    else a + "/" + b
  }

  /** `os.path.basename(p)`: what follows the last `/`. */
  function Basename(p: String): String {
    p[RFind(p, '/') + 1..]
  }

  /** The basename is the suffix of the path after its last `/`, or the whole path. */
  lemma BasenameSpec(p: String)
    ensures '/' !in Basename(p)
    ensures |Basename(p)| <= |p| && p[|p| - |Basename(p)|..] == Basename(p)
    ensures |Basename(p)| == |p| || p[|p| - |Basename(p)| - 1] == '/'
  {
  }

  /**
   * `os.path.splitext(p)`: the extension starts at the last `.` of the last
   * component, unless that component has only dots before it (a hidden
   * file such as `.sld` has no extension).
   */
  function SplitExt(p: String): (String, String) {
    var sepIndex := RFind(p, '/');
    var dotIndex := RFind(p, '.');
    if dotIndex > sepIndex && !OnlyDots(p[sepIndex + 1..dotIndex]) then
      (p[..dotIndex], p[dotIndex..])
    else (p, [])
  }

  /** Every character of `s` is a `.` (true of the empty string). */
  predicate OnlyDots(s: String) {
    s == [] || (s[0] == '.' && OnlyDots(s[1..]))
  }

  /** The two parts put back together give the path; a non-empty extension is one `.` and no `/` or other `.`. */
  lemma SplitExtSpec(p: String)
    ensures SplitExt(p).0 + SplitExt(p).1 == p
    ensures SplitExt(p).1 == [] || (SplitExt(p).1[0] == '.' && '/' !in SplitExt(p).1 && '.' !in SplitExt(p).1[1..])
  {
    var sepIndex := RFind(p, '/');
    var dotIndex := RFind(p, '.');
    if SplitExt(p).1 != [] {
      assert p[dotIndex..] == p[sepIndex + 1..][dotIndex - sepIndex - 1..];
      assert p[dotIndex..][1..] == p[dotIndex + 1..];
    }
  }

  /** A folder entry that `glob(os.path.join(folder, '*.sld'))` returns: not hidden, ending in `.sld`. */
  predicate MatchesSld(name: String) {
    '/' !in name && |name| > 0 && name[0] != '.' && EndsWith(name, ".sld")
  }

  /** A matched name is longer than its extension. */
  lemma MatchesSldLength(name: String)
    requires MatchesSld(name)
    ensures |name| > 4 && name[|name| - 4..] == ".sld"
  {
  }

  /** The text `join` puts before a relative second part: the folder, with a `/` added unless it is empty or ends in one. */
  function Dir(folder: String): (d: String)
    ensures d == [] || d[|d| - 1] == '/'
  {
    if folder == "" || EndsWith(folder, "/") then
      assert folder != [] ==> folder[|folder| - 1] == folder[|folder| - 1..][0];
      folder
    else folder + "/"
  }

  /** Joining a folder and a relative part appends the part to the folder's directory text. */
  lemma JoinRelative(folder: String, name: String)
    requires |name| > 0 && name[0] != '/'
    ensures Join(folder, name) == Dir(folder) + name
  {
    assert !StartsWith(name, "/") by {
      assert name[..1][0] == name[0];
    }
  }

  /** The basename of a joined entry is the entry's name. */
  lemma BasenameJoin(folder: String, name: String)
    requires '/' !in name && |name| > 0
    ensures Basename(Join(folder, name)) == name
  {
    JoinRelative(folder, name);
    BasenameAfter(Dir(folder), name);
  }

  lemma BasenameAfter(pre: String, name: String)
    requires pre == [] || pre[|pre| - 1] == '/'
    requires '/' !in name
    ensures Basename(pre + name) == name
  {
    var p := pre + name;
    assert p[|pre|..] == name;
    if pre == [] {
      assert p == name;
    } else {
      RFindIs(p, '/', |pre| - 1);
    }
  }

  /** Past an optional directory part, a matched name splits into its stem and `.sld`. */
  lemma SplitExtSld(pre: String, name: String)
    requires pre == [] || pre[|pre| - 1] == '/'
    requires MatchesSld(name)
    ensures SplitExt(pre + name) == (pre + name[..|name| - 4], ".sld")
  {
    MatchesSldLength(name);
    var p := pre + name;
    var dot := |p| - 4;
    var stem := name[..|name| - 4];
    assert p[dot..] == ".sld" && RFind(p, '.') == dot by {
      assert p[dot..] == name[|name| - 4..];
      RFindIs(p, '.', dot);
    }
    assert RFind(p, '/') == |pre| - 1 by {
      if pre != [] {
        assert p[|pre|..] == name;
        RFindIs(p, '/', |pre| - 1);
      } else {
        assert p == name;
      }
    }
    assert !OnlyDots(p[|pre|..dot]) by {
      assert p[|pre|..dot] == stem;
    }
    assert p[..dot] == pre + stem;
  }
}
