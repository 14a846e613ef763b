/**
 * The semantics of the Python `str` operations that the algorithms use:
 * `sub in s`, `find`/`rfind` of one character, slicing with negative and
 * out-of-range indices, `rstrip(chars)`, `replace`, `count`, `split` on one
 * character, and `upper`/`title` restricted to ASCII letters.
 */
module PyStr {

  type String = seq<char>

  /** Python `s.startswith(p)`. */
  predicate StartsWith(s: String, p: String) {
    |p| <= |s| && s[..|p|] == p
  }

  /** Python `s.endswith(p)`. */
  predicate EndsWith(s: String, p: String) {
    |p| <= |s| && s[|s| - |p|..] == p
  }

  /** `sub` occurs in `s` starting at index `i`. */
  ghost predicate OccursAt(s: String, sub: String, i: int) {
    0 <= i && i + |sub| <= |s| && s[i..i + |sub|] == sub
  }

  /** `sub` is a (contiguous, case-sensitive) substring of `s`. */
  ghost predicate IsSubstring(sub: String, s: String) {
    exists i :: OccursAt(s, sub, i)
  }

  /** Python `sub in s`. */
  function Contains(s: String, sub: String): bool
    decreases |s|
  {
    StartsWith(s, sub) || (|s| > 0 && Contains(s[1..], sub))
  }

  /** The containment test is exactly the substring relation. */
  lemma {:induction false} ContainsIsSubstring(s: String, sub: String)
    ensures Contains(s, sub) <==> IsSubstring(sub, s)
    decreases |s|
  {
    if StartsWith(s, sub) {
      assert OccursAt(s, sub, 0);
    } else if |s| > 0 {
      ContainsIsSubstring(s[1..], sub);
      if Contains(s[1..], sub) {
        var i :| OccursAt(s[1..], sub, i);
        assert s[i + 1..i + 1 + |sub|] == s[1..][i..i + |sub|];
        assert OccursAt(s, sub, i + 1);
      }
      if IsSubstring(sub, s) {
        var i :| OccursAt(s, sub, i);
        if i > 0 {
          assert s[1..][i - 1..i - 1 + |sub|] == s[i..i + |sub|];
          assert OccursAt(s[1..], sub, i - 1);
        }
      }
    }
  }

  /** Python `s.find(c)` for a one-character argument: the first index of `c`, or -1. */
  function Find(s: String, c: char): (r: int)
    ensures -1 <= r < |s|
    ensures r == -1 <==> c !in s
    ensures 0 <= r ==> s[r] == c && c !in s[..r]
  {
    if |s| == 0 then -1
    else if s[0] == c then 0
    else
      var k := Find(s[1..], c);
      assert s[1..] == s[..|s|][1..];
      if k == -1 then -1
      else
        assert s[..k + 1] == [s[0]] + s[1..][..k];
        k + 1
  }

  /** The first index of `c` is where `find` stops. */
  lemma FindIs(s: String, c: char, k: nat)
    requires k < |s| && s[k] == c && c !in s[..k]
    ensures Find(s, c) == k
  {
    assert forall i :: 0 <= i < k ==> s[..k][i] == s[i];
  }

  /** Python `s.rfind(c)` for a one-character argument: the last index of `c`, or -1. */
  function RFind(s: String, c: char): (r: int)
    ensures -1 <= r < |s|
    ensures r == -1 <==> c !in s
    ensures 0 <= r ==> s[r] == c && c !in s[r + 1..]
  {
    if |s| == 0 then -1
    else if s[|s| - 1] == c then |s| - 1
    else
      var k := RFind(s[..|s| - 1], c);
      assert s == s[..|s| - 1] + [s[|s| - 1]];
      assert 0 <= k ==> s[k + 1..] == s[..|s| - 1][k + 1..] + [s[|s| - 1]];
      k
  }

  /** The last index of `c` is where `rfind` stops. */
  lemma RFindIs(s: String, c: char, k: nat)
    requires k < |s| && s[k] == c && c !in s[k + 1..]
    ensures RFind(s, c) == k
  {
  }

  /** How Python clamps a slice bound `k` for a string of length `n`. */
  function SliceBound(n: nat, k: int): (r: nat)
    ensures r <= n
    ensures 0 <= k <= n ==> r == k
    ensures -(n as int) <= k < 0 ==> r == n as int + k
  {
    if k < 0 then (if n + k < 0 then 0 else n + k)
    else if k > n then n
    else k
  }

  /** Python `s[i:j]`. */
  function Slice(s: String, i: int, j: int): String {
    var lo := SliceBound(|s|, i);
    var hi := SliceBound(|s|, j);
    if hi <= lo then [] else s[lo..hi]
  }

  /** Python `s[k:]`. */
  function SliceFrom(s: String, k: int): String {
    Slice(s, k, |s|)
  }

  /** Python `s[:k]`. */
  function SliceTo(s: String, k: int): String {
    Slice(s, 0, k)
  }

  /** Python `s[-1]`; Python raises IndexError on the empty string. */
  function Last(s: String): char
    requires |s| > 0
  {
    s[|s| - 1]
  }

  /**
   * Python `s.rstrip(chars)`: removes the longest trailing run of characters
   * that belong to `chars` (a set of characters, not a suffix).
   */
  function RStrip(s: String, chars: String): (r: String)
    ensures |r| <= |s| && r == s[..|r|]
    ensures |r| == 0 || r[|r| - 1] !in chars
    ensures forall i :: |r| <= i < |s| ==> s[i] in chars
    decreases |s|
  {
    if |s| > 0 && s[|s| - 1] in chars then
      var r := RStrip(s[..|s| - 1], chars);
      assert s[..|s| - 1][..|r|] == s[..|r|];
      r
    else s
  }

  /**
   * `rstrip` is characterised by its cut point: a prefix not ending in a
   * stripped character, followed only by stripped characters.
   */
  lemma RStripCut(s: String, chars: String, n: nat)
    requires n <= |s| && (n == 0 || s[n - 1] !in chars)
    requires forall i :: n <= i < |s| ==> s[i] in chars
    ensures RStrip(s, chars) == s[..n]
  {
  }

  /** Stripping twice strips nothing more. */
  lemma RStripIdempotent(s: String, chars: String)
    ensures RStrip(RStrip(s, chars), chars) == RStrip(s, chars)
  {
  }

  /** Python `s.replace(pat, rep)` for one character by one character: every character equal to `a` becomes `b`. */
  function MapChar(s: String, a: char, b: char): (r: String)
    ensures |r| == |s|
  {
    seq(|s|, i requires 0 <= i < |s| => if s[i] == a then b else s[i])
  }

  /** Python `s.replace('', rep)`: inserts `rep` before every character and at the end. */
  function ReplaceEmpty(s: String, rep: String): String {
    if s == [] then rep else rep + [s[0]] + ReplaceEmpty(s[1..], rep)
  }

  /**
   * Python `s.replace(pat, rep)`: scans left to right and replaces every
   * non-overlapping occurrence of `pat`; an empty `pat` matches between every
   * two characters and at both ends.
   */
  function Replace(s: String, pat: String, rep: String): String
    decreases |s|
  {
    if pat == [] then ReplaceEmpty(s, rep)
    else if StartsWith(s, pat) then rep + Replace(s[|pat|..], pat, rep)
    else if s == [] then []
    else [s[0]] + Replace(s[1..], pat, rep)
  }

  /** Python `s.count(sub)`: the number of non-overlapping occurrences scanning left to right. */
  function Count(s: String, sub: String): nat
    decreases |s|
  {
    if sub == [] then |s| + 1
    else if StartsWith(s, sub) then 1 + Count(s[|sub|..], sub)
    else if s == [] then 0
    else Count(s[1..], sub)
  }

  /** A string that does not contain `pat` is left unchanged by `replace`. */
  lemma {:induction false} ReplaceAbsent(s: String, pat: String, rep: String)
    requires !Contains(s, pat)
    ensures Replace(s, pat, rep) == s
    decreases |s|
  {
    if s != [] {
      ReplaceAbsent(s[1..], pat, rep);
      assert s == [s[0]] + s[1..];
    }
  }

  /** Replacing a string by itself changes nothing. */
  lemma {:induction false} ReplaceSame(s: String, pat: String)
    ensures Replace(s, pat, pat) == s
    decreases |s|
  {
    if pat == [] {
      ReplaceEmptyNothing(s);
    } else if StartsWith(s, pat) {
      ReplaceSame(s[|pat|..], pat);
      assert s == s[..|pat|] + s[|pat|..];
    } else if s != [] {
      ReplaceSame(s[1..], pat);
      assert s == [s[0]] + s[1..];
    }
  }

  lemma {:induction false} ReplaceEmptyNothing(s: String)
    ensures ReplaceEmpty(s, []) == s
  {
    if s != [] {
      ReplaceEmptyNothing(s[1..]);
      assert s == [s[0]] + s[1..];
    }
  }

  /** Python's identity `len(s.replace(a, b)) == len(s) + s.count(a) * (len(b) - len(a))`. */
  lemma {:induction false} ReplaceLength(s: String, pat: String, rep: String)
    ensures |Replace(s, pat, rep)| == |s| + Count(s, pat) * (|rep| - |pat|)
    decreases |s|
  {
    if pat == [] {
      ReplaceEmptyLength(s, rep);
    } else if StartsWith(s, pat) {
      var t := s[|pat|..];
      ReplaceLength(t, pat, rep);
      assert |Replace(s, pat, rep)| == |rep| + |Replace(t, pat, rep)|;
      assert Count(s, pat) == Count(t, pat) + 1;
      MulSucc(Count(t, pat), |rep| - |pat|);
    } else if s != [] {
      ReplaceLength(s[1..], pat, rep);
    }
  }

  lemma {:induction false} ReplaceEmptyLength(s: String, rep: String)
    ensures |ReplaceEmpty(s, rep)| == |s| + (|s| + 1) * |rep|
  {
    if s != [] {
      ReplaceEmptyLength(s[1..], rep);
      MulSucc(|s|, |rep|);
    }
  }

  lemma MulSucc(c: int, d: int)
    ensures (c + 1) * d == c * d + d
  {
  }

  /** `count` is zero exactly when the string does not occur. */
  lemma {:induction false} CountZeroIffAbsent(s: String, sub: String)
    ensures Count(s, sub) == 0 <==> !Contains(s, sub)
    decreases |s|
  {
    if sub != [] && !StartsWith(s, sub) && s != [] {
      CountZeroIffAbsent(s[1..], sub);
    }
  }

  /** Replacing a one-character string by a one-character string maps characters. */
  lemma {:induction false} ReplaceOneChar(s: String, a: char, b: char)
    ensures Replace(s, [a], [b]) == MapChar(s, a, b)
  {
    if s != [] {
      ReplaceOneChar(s[1..], a, b);
      assert StartsWith(s, [a]) <==> s[0] == a;
      assert s[1..] == s[|[a]|..];
      assert MapChar(s, a, b) == [if s[0] == a then b else s[0]] + MapChar(s[1..], a, b);
    }
  }

  /** Python `'c'.upper()` restricted to ASCII. */
  function UpperChar(c: char): char {
    if 'a' <= c <= 'z' then (c as int - 32) as char else c
  }

  /** Python `'c'.lower()` restricted to ASCII. */
  function LowerChar(c: char): char {
    if 'A' <= c <= 'Z' then (c as int + 32) as char else c
  }

  /** A cased character, in the sense of `str.title`, restricted to ASCII letters. */
  predicate IsCased(c: char) {
    'a' <= c <= 'z' || 'A' <= c <= 'Z'
  }

  /** Python `s.upper()` restricted to ASCII. */
  function Upper(s: String): (r: String)
    ensures |r| == |s|
  {
    seq(|s|, i requires 0 <= i < |s| => UpperChar(s[i]))
  }

  /** How `str.title` rewrites one character, given whether the previous one was cased. */
  function TitleChar(c: char, previousCased: bool): char {
    if !IsCased(c) then c else if previousCased then LowerChar(c) else UpperChar(c)
  }

  function TitleFrom(s: String, previousCased: bool): (r: String)
    ensures |r| == |s|
    ensures forall i :: 0 <= i < |s| ==>
      r[i] == TitleChar(s[i], if i == 0 then previousCased else IsCased(s[i - 1]))
  {
    if s == [] then []
    else [TitleChar(s[0], previousCased)] + TitleFrom(s[1..], IsCased(s[0]))
  }

  /**
   * Python `s.title()` restricted to ASCII: a letter is upper-cased when the
   * character before it is not a letter (or it is the first), and lower-cased
   * otherwise; every other character is kept.
   */
  function Title(s: String): (r: String)
    ensures |r| == |s|
    ensures forall i :: 0 <= i < |s| && IsCased(s[i]) && (i == 0 || !IsCased(s[i - 1])) ==>
      r[i] == UpperChar(s[i])
    ensures forall i :: 0 <= i < |s| && IsCased(s[i]) && 0 < i && IsCased(s[i - 1]) ==>
      r[i] == LowerChar(s[i])
    ensures forall i :: 0 <= i < |s| && !IsCased(s[i]) ==> r[i] == s[i]
  {
    var r := TitleFrom(s, false);
    assert forall i :: 0 <= i < |s| && !IsCased(s[i]) ==> r[i] == s[i] by {
      forall i | 0 <= i < |s| && !IsCased(s[i]) ensures r[i] == s[i] {
        var p := if i == 0 then false else IsCased(s[i - 1]);
        assert r[i] == TitleChar(s[i], p);
      }
    }
    r
  }

  /** `str.title` changes only the case of letters: a character is a letter before exactly when it is one after. */
  lemma TitleKeepsCased(s: String)
    ensures forall i :: 0 <= i < |s| ==> (IsCased(Title(s)[i]) <==> IsCased(s[i]))
  {
    var r := Title(s);
    forall i | 0 <= i < |s| ensures IsCased(r[i]) <==> IsCased(s[i]) {
      if IsCased(s[i]) {
        if i == 0 || !IsCased(s[i - 1]) {
          assert r[i] == UpperChar(s[i]);
        } else {
          assert r[i] == LowerChar(s[i]);
        }
      }
    }
  }

  /** The text before the first `sep`, or all of `s` when `sep` does not occur. */
  function Before(s: String, sep: char): String {
    if sep in s then s[..Find(s, sep)] else s
  }

  /** Python `sep.join(parts)` for a one-character separator. */
  function JoinWith(parts: seq<String>, sep: char): String
    requires |parts| >= 1
  {
    if |parts| == 1 then parts[0] else parts[0] + [sep] + JoinWith(parts[1..], sep)
  }

  /** Python `s.split(sep)` for a one-character separator. */
  function Split(s: String, sep: char): (parts: seq<String>)
    ensures |parts| >= 1
  {
    if |s| == 0 then [[]]
    else
      var rest := Split(s[1..], sep);
      if s[0] == sep then [[]] + rest
      else [[s[0]] + rest[0]] + rest[1..]
  }

  /** No part of a split contains the separator, and joining the parts gives the string back. */
  lemma {:induction false} SplitJoin(s: String, sep: char)
    ensures forall k :: 0 <= k < |Split(s, sep)| ==> sep !in Split(s, sep)[k]
    ensures JoinWith(Split(s, sep), sep) == s
  {
    if |s| > 0 {
      var rest := Split(s[1..], sep);
      SplitJoin(s[1..], sep);
      assert s == [s[0]] + s[1..];
      if s[0] != sep {
        var parts := Split(s, sep);
        assert parts[1..] == rest[1..];
        assert parts[0] == [s[0]] + rest[0];
      }
    }
  }

  /**
   * The first part of a split is the text before the first separator, and
   * there is a single part exactly when the separator does not occur.
   */
  lemma {:induction false} SplitFirst(s: String, sep: char)
    ensures Split(s, sep)[0] == Before(s, sep)
    ensures |Split(s, sep)| == 1 <==> sep !in s
  {
    if |s| > 0 {
      SplitFirst(s[1..], sep);
      assert s == [s[0]] + s[1..];
      if s[0] != sep {
        assert sep in s[1..] ==> Find(s, sep) == Find(s[1..], sep) + 1;
        assert sep in s[1..] ==> s[..Find(s, sep)] == [s[0]] + s[1..][..Find(s[1..], sep)];
      }
    }
  }
  /** A piece without the separator, followed by the separator, splits off as the first part. */
  lemma {:induction false} SplitCons(a: String, sep: char, t: String)
    requires sep !in a
    ensures Split(a + [sep] + t, sep) == [a] + Split(t, sep)
  {
    if a != [] {
      SplitCons(a[1..], sep, t);
      assert (a + [sep] + t)[1..] == a[1..] + [sep] + t;
      assert a == [a[0]] + a[1..];
    } else {
      assert (a + [sep] + t)[1..] == t;
    }
  }
}
