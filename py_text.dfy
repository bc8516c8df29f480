/**
 * The Python string and path primitives that the indexing and clip code of ResNet3D.py
 * relies on, written out: str.split and str.join with a one-character separator, str.strip,
 * str.lower (on the ASCII letters), str.endswith, posixpath.join with two arguments, and
 * the code-point order of str together with sorted() over a list of names.
 */
module PyText {
  import opened Wrappers

  /** The position xs[idx] reads in a list of length n: a negative idx counts from the end. */
  function ListIndex(n: nat, idx: int): (k: Option<nat>)
    ensures k.Some? <==> 0 <= idx + n && idx < n
    ensures k.Some? ==> k.value < n && (k.value == idx || k.value == idx + n)
  {
    if 0 <= idx < n then Some(idx)
    else if 0 <= n + idx && idx < 0 then Some(n + idx)
    else None
  }

  /** [x] * n */
  function Repeat<T>(x: T, n: nat): (r: seq<T>)
    ensures |r| == n
    ensures forall i :: 0 <= i < n ==> r[i] == x
  {
    if n == 0 then [] else Repeat(x, n - 1) + [x]
  }

  /** s[:stop] for a Python list: a negative stop counts from the end. */
  function SliceTo<T>(s: seq<T>, stop: int): (r: seq<T>)
    ensures 0 <= stop ==> r == s[..if stop <= |s| then stop else |s|]
    ensures stop < 0 ==> r == s[..if |s| + stop >= 0 then |s| + stop else 0]
  {
    var end := if stop < 0 then |s| + stop else stop;
    if end < 0 then [] else if end > |s| then s else s[..end]
  }

  // ---------------------------------------------------------------------------
  // split and join
  // ---------------------------------------------------------------------------

  /** s.split(sep): the maximal runs of s that contain no sep, in order; always at least one part. */
  function Split(s: string, sep: char): (parts: seq<string>)
    ensures |parts| >= 1
  {
    if s == [] then [""]
    else
      var rest := Split(s[1..], sep);
      if s[0] == sep then [""] + rest
      else [[s[0]] + rest[0]] + rest[1..]
  }

  /** No part contains the separator. */
  lemma {:induction false} SplitPartsFree(s: string, sep: char)
    ensures forall i :: 0 <= i < |Split(s, sep)| ==> sep !in Split(s, sep)[i]
  {
    if s != [] {
      SplitPartsFree(s[1..], sep);
      var rest := Split(s[1..], sep);
      if s[0] != sep {
        assert sep !in rest[0];
        assert forall i :: 1 <= i < |rest| ==> sep !in rest[i];
      }
    }
  }

  /** sep.join(parts) */
  function Join(sep: char, parts: seq<string>): string {
    if |parts| == 0 then ""
    else if |parts| == 1 then parts[0]
    else parts[0] + [sep] + Join(sep, parts[1..])
  }

  lemma SplitWithoutSeparator(s: string, sep: char)
    requires sep !in s
    ensures Split(s, sep) == [s]
  {
    if s != [] {
      SplitWithoutSeparator(s[1..], sep);
      assert [s[0]] + s[1..] == s;
    }
  }

  lemma {:induction false} SplitWithSeparator(s: string, sep: char)
    requires sep in s
    ensures |Split(s, sep)| >= 2
  {
    if s[0] != sep {
      SplitWithSeparator(s[1..], sep);
    }
  }

  lemma JoinConsHead(sep: char, c: char, p: string, q: seq<string>)
    ensures Join(sep, [[c] + p] + q) == [c] + Join(sep, [p] + q)
  {
    if |q| > 0 {
      assert ([[c] + p] + q)[1..] == q;
      assert ([p] + q)[1..] == q;
    }
  }

  /** Splitting and re-joining with the same separator gives the string back. */
  lemma {:induction false} JoinSplit(s: string, sep: char)
    ensures Join(sep, Split(s, sep)) == s
  {
    if s != [] {
      var rest := Split(s[1..], sep);
      JoinSplit(s[1..], sep);
      if s[0] == sep {
        assert ([""] + rest)[1..] == rest;
      } else {
        JoinConsHead(sep, s[0], rest[0], rest[1..]);
        assert [rest[0]] + rest[1..] == rest;
      }
    }
  }

  // ---------------------------------------------------------------------------
  // strip
  // ---------------------------------------------------------------------------

  /** The characters for which Python's str.isspace() holds, which str.strip() removes. */
  predicate IsSpace(c: char) {
    c == ' ' || ('\t' <= c <= '\r') || ('\U{1C}' <= c <= '\U{1F}') || c == '\U{85}' || c == '\U{A0}'
    || c == '\U{1680}' || ('\U{2000}' <= c <= '\U{200A}') || c == '\U{2028}' || c == '\U{2029}'
    || c == '\U{202F}' || c == '\U{205F}' || c == '\U{3000}'
  }

  /** Number of leading whitespace characters. */
  function LeadingSpace(s: string): (n: nat)
    ensures n <= |s|
    ensures forall k :: 0 <= k < n ==> IsSpace(s[k])
    ensures n < |s| ==> !IsSpace(s[n])
  {
    if s == [] || !IsSpace(s[0]) then 0 else 1 + LeadingSpace(s[1..])
  }

  /** Number of trailing whitespace characters. */
  function TrailingSpace(s: string): (n: nat)
    ensures n <= |s|
    ensures forall k :: |s| - n <= k < |s| ==> IsSpace(s[k])
    ensures n < |s| ==> !IsSpace(s[|s| - 1 - n])
  {
    if s == [] || !IsSpace(s[|s| - 1]) then 0 else 1 + TrailingSpace(s[..|s| - 1])
  }

  /** s.strip(): s without its leading and trailing whitespace. */
  function Strip(s: string): string {
    var t := s[LeadingSpace(s)..];
    t[..|t| - TrailingSpace(t)]
  }

  /**
   * strip() removes whitespace only at the two ends: what is left is the piece of s between a
   * run of leading and a run of trailing whitespace, it neither starts nor ends with whitespace,
   * and a name without whitespace is left as it is.
   */
  lemma StripSpec(s: string)
    ensures |Strip(s)| <= |s|
    ensures exists i, j :: (0 <= i <= j <= |s| && Strip(s) == s[i..j]
      && (forall k :: 0 <= k < i ==> IsSpace(s[k])) && (forall k :: j <= k < |s| ==> IsSpace(s[k])))
    ensures Strip(s) != [] ==> !IsSpace(Strip(s)[0]) && !IsSpace(Strip(s)[|Strip(s)| - 1])
    ensures (forall k :: 0 <= k < |s| ==> !IsSpace(s[k])) ==> Strip(s) == s
  {
    var i := LeadingSpace(s);
    var t := s[i..];
    var j := i + |t| - TrailingSpace(t);
    assert Strip(s) == s[i..j];
    assert forall k :: j <= k < |s| ==> s[k] == t[k - i];
  }

  // ---------------------------------------------------------------------------
  // lower and endswith
  // ---------------------------------------------------------------------------

  function LowerChar(c: char): char {
    if 'A' <= c <= 'Z' then (c as int + 32) as char else c
  }

  /**
   * s.lower() on the ASCII letters. Python also lowers other letters, but no letter outside
   * ASCII lowers to one of the characters of ".png", ".jpg", ".jpeg" or ".bmp", so the
   * extension test below gives the same answers.
   */
  function Lower(s: string): (r: string)
    ensures |r| == |s|
  {
    seq(|s|, i requires 0 <= i < |s| => LowerChar(s[i]))
  }

  lemma LowerIdempotent(s: string)
    ensures Lower(Lower(s)) == Lower(s)
  {
  }

  lemma LowerConcat(a: string, b: string)
    ensures Lower(a + b) == Lower(a) + Lower(b)
  {
  }

  /** s.endswith(suffix) */
  predicate EndsWith(s: string, suffix: string) {
    |suffix| <= |s| && s[|s| - |suffix|..] == suffix
  }

  // ---------------------------------------------------------------------------
  // posixpath.join
  // ---------------------------------------------------------------------------

  /**
   * os.path.join(a, b) on POSIX: an absolute b replaces a; otherwise b is appended to a,
   * with a '/' in between unless a is empty or already ends in '/'.
   */
  function PathJoin(a: string, b: string): string {
    if b != [] && b[0] == '/' then b
    else if a == [] || a[|a| - 1] == '/' then a + b
    else a + "/" + b
  }

  /** The joined path always ends with the file name, and lies under a unless the name is absolute. */
  lemma PathJoinSpec(a: string, b: string)
    ensures EndsWith(PathJoin(a, b), b)
    ensures b == [] || b[0] != '/' ==> PathJoin(a, b)[..|a|] == a
    ensures b != [] && b[0] == '/' ==> PathJoin(a, b) == b
  {
  }

  // ---------------------------------------------------------------------------
  // code-point order of str, and sorted()
  // ---------------------------------------------------------------------------

  /** a <= b for Python strings: lexicographic on code points, a proper prefix first. */
  predicate StrLe(a: string, b: string) {
    if a == [] then true
    else if b == [] then false
    else a[0] < b[0] || (a[0] == b[0] && StrLe(a[1..], b[1..]))
  }

  lemma {:induction false} StrLeTotal(a: string, b: string)
    ensures StrLe(a, b) || StrLe(b, a)
  {
    if a != [] && b != [] && a[0] == b[0] {
      StrLeTotal(a[1..], b[1..]);
    }
  }

  lemma {:induction false} StrLeTransitive(a: string, b: string, c: string)
    requires StrLe(a, b) && StrLe(b, c)
    ensures StrLe(a, c)
  {
    if a != [] && b != [] && c != [] && a[0] == b[0] == c[0] {
      StrLeTransitive(a[1..], b[1..], c[1..]);
    }
  }

  lemma {:induction false} StrLeAntisymmetric(a: string, b: string)
    requires StrLe(a, b) && StrLe(b, a)
    ensures a == b
  {
    if a != [] && b != [] {
      StrLeAntisymmetric(a[1..], b[1..]);
    }
  }

  predicate Sorted(s: seq<string>) {
    forall i, j :: 0 <= i < j < |s| ==> StrLe(s[i], s[j])
  }

  function Insert(x: string, s: seq<string>): seq<string> {
    if s == [] then [x]
    else if StrLe(x, s[0]) then [x] + s
    else [s[0]] + Insert(x, s[1..])
  }

  /** sorted(names): insertion sort under the code-point order. */
  function Sort(s: seq<string>): seq<string> {
    if s == [] then [] else Insert(s[0], Sort(s[1..]))
  }

  lemma {:induction false} InsertPermutes(x: string, s: seq<string>)
    ensures multiset(Insert(x, s)) == multiset(s) + multiset{x}
  {
    if s != [] && !StrLe(x, s[0]) {
      InsertPermutes(x, s[1..]);
      assert s == [s[0]] + s[1..];
    }
  }

  lemma {:induction false} InsertSorted(x: string, s: seq<string>)
    requires Sorted(s)
    ensures Sorted(Insert(x, s))
  {
    if s == [] {
    } else if StrLe(x, s[0]) {
      forall j | 0 <= j < |s| ensures StrLe(x, s[j]) {
        if j > 0 { StrLeTransitive(x, s[0], s[j]); }
      }
    } else {
      StrLeTotal(x, s[0]);
      InsertSorted(x, s[1..]);
      InsertPermutes(x, s[1..]);
      var r := Insert(x, s[1..]);
      forall j | 0 <= j < |r| ensures StrLe(s[0], r[j]) {
        assert r[j] in multiset(r);
        assert r[j] == x || r[j] in multiset(s[1..]);
        if r[j] != x {
          var k :| 0 <= k < |s[1..]| && s[1..][k] == r[j];
          assert s[k + 1] == r[j];
        }
      }
    }
  }

  /** sorted() returns its argument's names in ascending order and loses or adds none. */
  lemma {:induction false} SortSorted(s: seq<string>)
    ensures Sorted(Sort(s)) && multiset(Sort(s)) == multiset(s) && |Sort(s)| == |s|
  {
    if s != [] {
      SortSorted(s[1..]);
      InsertSorted(s[0], Sort(s[1..]));
      InsertPermutes(s[0], Sort(s[1..]));
      assert s == [s[0]] + s[1..];
    }
    assert |multiset(Sort(s))| == |multiset(s)|;
  }

  /** Two sorted lists holding the same names are the same list. */
  lemma {:induction false} SortedUnique(a: seq<string>, b: seq<string>)
    requires Sorted(a) && Sorted(b) && multiset(a) == multiset(b)
    ensures a == b
  {
    if a == [] {
      assert |multiset(b)| == 0;
    } else {
      assert a[0] in multiset(b);
      var j :| 0 <= j < |b| && b[j] == a[0];
      assert b[0] in multiset(a);
      var i :| 0 <= i < |a| && a[i] == b[0];
      if i > 0 && j > 0 {
        StrLeAntisymmetric(a[0], b[0]);
      }
      TailsAgree(a, b);
      SortedUnique(a[1..], b[1..]);
    }
  }

  lemma TailsAgree(a: seq<string>, b: seq<string>)
    requires a != [] && b != [] && a[0] == b[0] && multiset(a) == multiset(b)
    requires Sorted(a) && Sorted(b)
    ensures multiset(a[1..]) == multiset(b[1..])
    ensures Sorted(a[1..]) && Sorted(b[1..])
  {
    assert a == [a[0]] + a[1..];
    assert b == [b[0]] + b[1..];
    assert multiset(a) == multiset{a[0]} + multiset(a[1..]);
    assert multiset(b) == multiset{a[0]} + multiset(b[1..]);
    assert multiset(a[1..]) == multiset(a) - multiset{a[0]} == multiset(b[1..]);
  }

  /** sorted() is the only ordering of the names that is ascending: any sorted permutation is it. */
  lemma SortUnique(s: seq<string>, t: seq<string>)
    requires Sorted(t) && multiset(t) == multiset(s)
    ensures t == Sort(s)
  {
    SortSorted(s);
    SortedUnique(t, Sort(s));
  }
}
