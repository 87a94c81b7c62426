/**
  The few `String` operations the snippet apps use: lower-casing, the `<` order,
  substring search, trimming of `.whitespaces`, and `split`/`joined` around a
  separator. Strings are sequences of Unicode scalars.
*/
module Strings {
  import Seqs

  // ---------------------------------------------------------------------------
  // Case

  /** `Character.lowercased()` on the ASCII letters; every other character is kept. */
  function LowerChar(c: char): (r: char)
    ensures 'A' <= c <= 'Z' ==> r as int == c as int + 32
    ensures !('A' <= c <= 'Z') ==> r == c
    ensures !('A' <= r <= 'Z')
  {
    if 'A' <= c <= 'Z' then (c as int + 32) as char else c
  }

  /** `lowercased()`, character by character. */
  function Lower(s: string): (r: string)
    ensures |r| == |s| && forall i :: 0 <= i < |s| ==> r[i] == LowerChar(s[i])
  {
    seq(|s|, i requires 0 <= i < |s| => LowerChar(s[i]))
  }

  /** Lower-casing twice is lower-casing once. */
  lemma LowerIdempotent(s: string)
    ensures Lower(Lower(s)) == Lower(s)
  {
  }

  /** Lower-casing commutes with taking a slice. */
  lemma LowerSlice(s: string, i: int, j: int)
    requires 0 <= i <= j <= |s|
    ensures Lower(s[i..j]) == Lower(s)[i..j]
  {
  }

  // ---------------------------------------------------------------------------
  // Order

  /** `a < b` on strings: lexicographic on the characters, a proper prefix first. */
  predicate Less(a: string, b: string)
  {
    if a == [] then b != []
    else if b == [] then false
    else if a[0] != b[0] then a[0] < b[0]
    else Less(a[1..], b[1..])
  }

  lemma {:induction false} LessIrreflexive(a: string)
    ensures !Less(a, a)
  {
    if a != [] {
      LessIrreflexive(a[1..]);
    }
  }

  lemma {:induction false} LessTransitive(a: string, b: string, c: string)
    requires Less(a, b) && Less(b, c)
    ensures Less(a, c)
  {
    if a != [] && b != [] && c != [] && a[0] == b[0] && b[0] == c[0] {
      LessTransitive(a[1..], b[1..], c[1..]);
    }
  }

  lemma LessAsymmetric(a: string, b: string)
    requires Less(a, b)
    ensures !Less(b, a)
  {
    if Less(b, a) {
      LessTransitive(a, b, a);
      LessIrreflexive(a);
    }
  }

  /** Any two strings are equal or ordered one way round. */
  lemma {:induction false} LessTotal(a: string, b: string)
    ensures a == b || Less(a, b) || Less(b, a)
  {
    if a != [] && b != [] && a[0] == b[0] {
      LessTotal(a[1..], b[1..]);
      if a[1..] == b[1..] {
        assert a == [a[0]] + a[1..] && b == [b[0]] + b[1..];
      }
    }
  }

  /** `a <= b`. */
  predicate LessOrEqual(a: string, b: string) {
    !Less(b, a)
  }

  /** Strictly below, then at most: still strictly below. */
  lemma LessThenLessOrEqual(a: string, b: string, c: string)
    requires Less(a, b) && LessOrEqual(b, c)
    ensures Less(a, c)
  {
    LessTotal(b, c);
    if Less(b, c) {
      LessTransitive(a, b, c);
    }
  }

  /** `<=` is transitive. */
  lemma LessOrEqualTransitive(a: string, b: string, c: string)
    requires LessOrEqual(a, b) && LessOrEqual(b, c)
    ensures LessOrEqual(a, c)
  {
    if Less(c, a) {
      LessTotal(a, b);
      if a == b {
      } else {
        LessTransitive(c, a, b);
      }
    }
  }

  // ---------------------------------------------------------------------------
  // Search

  /** `s` has `t` as a contiguous piece starting at `i`. */
  predicate OccursAt(s: string, t: string, i: int) {
    0 <= i && i + |t| <= |s| && s[i..i + |t|] == t
  }

  /** `s.contains(t)`. */
  predicate Contains(s: string, t: string) {
    exists i :: 0 <= i <= |s| && OccursAt(s, t, i)
  }

  /**
    `s.localizedCaseInsensitiveContains(t)`, with ASCII case folding: both are
    lower-cased, then searched. An empty `t` is never found, as with Foundation's search.
  */
  predicate ContainsIgnoringCase(s: string, t: string) {
    t != [] && Contains(Lower(s), Lower(t))
  }

  /** An exact match is also a match ignoring case. */
  lemma ContainsIsCaseInsensitive(s: string, t: string, i: int)
    requires t != [] && OccursAt(s, t, i)
    ensures ContainsIgnoringCase(s, t)
  {
    LowerSlice(s, i, i + |t|);
    assert OccursAt(Lower(s), Lower(t), i);
  }

  /** A string lower-cases to itself exactly when it has no upper-case ASCII letter. */
  lemma LowerFixed(s: string)
    ensures Lower(s) == s <==> forall i :: 0 <= i < |s| ==> !('A' <= s[i] <= 'Z')
  {
    if Lower(s) == s {
      forall i | 0 <= i < |s| ensures !('A' <= s[i] <= 'Z') {
        assert Lower(s)[i] == s[i];
      }
    }
  }

  // ---------------------------------------------------------------------------
  // Trimming

  /** `CharacterSet.whitespaces`: tab and the Unicode space separators (category Zs). */
  predicate IsWhitespace(c: char) {
    c in Whitespace
  }

  /** Tab, space, no-break space, ogham space mark, U+2000 to U+200A, U+202F, U+205F and U+3000. */
  const Whitespace: set<char> := {
    0x09 as char, 0x20 as char, 0xA0 as char, 0x1680 as char,
    0x2000 as char, 0x2001 as char, 0x2002 as char, 0x2003 as char, 0x2004 as char, 0x2005 as char,
    0x2006 as char, 0x2007 as char, 0x2008 as char, 0x2009 as char, 0x200A as char,
    0x202F as char, 0x205F as char, 0x3000 as char
  }

  /** Neither end of `s` is whitespace. */
  predicate IsTrimmed(s: string) {
    s == [] || (!IsWhitespace(s[0]) && !IsWhitespace(s[|s| - 1]))
  }

  /** `s` with its leading whitespace removed. */
  function TrimStart(s: string): (r: string)
    ensures |r| <= |s| && r == s[|s| - |r|..]
    ensures forall k :: 0 <= k < |s| - |r| ==> IsWhitespace(s[k])
    ensures r == [] || !IsWhitespace(r[0])
    ensures s != [] && !IsWhitespace(s[0]) ==> r == s
  {
    if s != [] && IsWhitespace(s[0]) then
      var r := TrimStart(s[1..]);
      assert forall k :: 1 <= k < |s| - |r| ==> s[k] == s[1..][k - 1];
      r
    else s
  }

  /** `s` with its trailing whitespace removed. */
  function TrimEnd(s: string): (r: string)
    ensures |r| <= |s| && r == s[..|r|]
    ensures forall k :: |r| <= k < |s| ==> IsWhitespace(s[k])
    ensures r == [] || !IsWhitespace(r[|r| - 1])
    ensures s != [] && !IsWhitespace(s[|s| - 1]) ==> r == s
  {
    if s != [] && IsWhitespace(s[|s| - 1]) then
      var t := s[..|s| - 1];
      var r := TrimEnd(t);
      assert forall k :: |r| <= k < |t| ==> s[k] == t[k];
      r
    else s
  }

  /** Everything of `s` outside `s[i..j]` is whitespace. */
  predicate WhitespaceOutside(s: string, i: int, j: int)
    requires 0 <= i <= j <= |s|
  {
    (forall k :: 0 <= k < i ==> IsWhitespace(s[k])) && (forall k :: j <= k < |s| ==> IsWhitespace(s[k]))
  }

  /**
    `trimmingCharacters(in: .whitespaces)`: the slice of `s` left once the whitespace at
    both ends is gone. A trimmed slice with only whitespace outside it is unique
    (`TrimUnique`), so these clauses fix the result.
  */
  function Trim(s: string): (r: string)
    ensures IsTrimmed(r)
    ensures exists i, j :: 0 <= i <= j <= |s| && r == s[i..j] && WhitespaceOutside(s, i, j)
    ensures Contains(s, r)
    ensures IsTrimmed(s) ==> r == s
  {
    var front := TrimStart(s);
    var r := TrimEnd(front);
    var i := |s| - |front|;
    BothEndsTrimmed(s, front, r);
    assert 0 <= i <= i + |r| <= |s| && r == s[i..i + |r|] && WhitespaceOutside(s, i, i + |r|);
    assert OccursAt(s, r, i);
    assert r != [] ==> r[0] == front[0];
    r
  }

  /** The end of a tail of `s` is a slice of `s`, and what each step dropped is all around it. */
  lemma BothEndsTrimmed(s: string, front: string, r: string)
    requires |front| <= |s| && front == s[|s| - |front|..]
    requires forall k :: 0 <= k < |s| - |front| ==> IsWhitespace(s[k])
    requires |r| <= |front| && r == front[..|r|]
    requires forall k :: |r| <= k < |front| ==> IsWhitespace(front[k])
    ensures var i := |s| - |front|;
      r == s[i..i + |r|] && WhitespaceOutside(s, i, i + |r|)
  {
    var i := |s| - |front|;
    forall k | i + |r| <= k < |s|
      ensures IsWhitespace(s[k])
    {
      assert s[k] == front[k - i];
    }
  }

  /** At most one trimmed slice of `s` has nothing but whitespace around it. */
  lemma TrimUnique(s: string, i: int, j: int, i': int, j': int)
    requires 0 <= i <= j <= |s| && IsTrimmed(s[i..j]) && WhitespaceOutside(s, i, j)
    requires 0 <= i' <= j' <= |s| && IsTrimmed(s[i'..j']) && WhitespaceOutside(s, i', j')
    ensures s[i..j] == s[i'..j']
  {
    if i < j {
      assert s[i..j][0] == s[i] && s[i..j][j - i - 1] == s[j - 1];
    }
    if i' < j' {
      assert s[i'..j'][0] == s[i'] && s[i'..j'][j' - i' - 1] == s[j' - 1];
    }
  }

  /** A piece of a string that has no `c` has no `c` either. */
  lemma SliceFree(s: string, c: char, i: int, j: int)
    requires 0 <= i <= j <= |s| && c !in s
    ensures c !in s[i..j]
  {
  }

  /** Trimming never brings in a character that was not there. */
  lemma TrimFree(s: string, c: char)
    requires c !in s
    ensures c !in Trim(s)
  {
    var r := Trim(s);
    var i :| 0 <= i <= |s| && OccursAt(s, r, i);
    SliceFree(s, c, i, i + |r|);
  }

  /** A space in front of a trimmed string is trimmed away again. */
  lemma TrimSpaced(t: string)
    requires IsTrimmed(t)
    ensures Trim([' '] + t) == t
  {
    var s := [' '] + t;
    assert s[1..] == t;
    if t != [] {
      assert TrimStart(s) == TrimStart(t) == t;
    } else {
      assert TrimStart(s) == [];
    }
  }

  // ---------------------------------------------------------------------------
  // Split and join

  /** The pieces between consecutive `sep`s, empty ones included; there is always one more than there are `sep`s. */
  function Pieces(s: string, sep: char): (r: seq<string>)
    ensures |r| >= 1
    ensures forall k :: 0 <= k < |r| ==> sep !in r[k]
  {
    if s == [] then [[]]
    else if s[0] == sep then [[]] + Pieces(s[1..], sep)
    else
      var rest := Pieces(s[1..], sep);
      [[s[0]] + rest[0]] + rest[1..]
  }

  predicate NonEmpty(s: string) {
    s != []
  }

  /** Joining the pieces with `sep` gives `s` back, so together with `PiecesOfJoined` they are exactly the parts between separators. */
  lemma {:induction false} JoinedPieces(s: string, sep: char)
    ensures Joined(Pieces(s, sep), [sep]) == s
  {
    if s != [] {
      var rest := Pieces(s[1..], sep);
      JoinedPieces(s[1..], sep);
      if s[0] == sep {
        var parts := [[]] + rest;
        assert parts[1..] == rest;
        assert Joined(parts, [sep]) == [] + [sep] + Joined(rest, [sep]);
        assert [sep] + s[1..] == s;
      } else {
        var parts := [[s[0]] + rest[0]] + rest[1..];
        if |rest| == 1 {
          assert Joined(parts, [sep]) == [s[0]] + rest[0];
        } else {
          assert parts[1..] == rest[1..];
          assert Joined(rest, [sep]) == rest[0] + [sep] + Joined(rest[1..], [sep]);
          assert Joined(parts, [sep]) == [s[0]] + Joined(rest, [sep]);
        }
        assert [s[0]] + s[1..] == s;
      }
    }
  }

  /** `s.split(separator: sep)`: the pieces between separators, with empty ones omitted, in order. */
  function Split(s: string, sep: char): (r: seq<string>)
    ensures r == Seqs.Filter(NonEmpty, Pieces(s, sep))
    ensures forall k :: 0 <= k < |r| ==> r[k] != [] && sep !in r[k]
  {
    var all := Pieces(s, sep);
    var r := Seqs.Filter(NonEmpty, all);
    assert forall k :: 0 <= k < |r| ==> r[k] in all;
    r
  }

  /** `parts.joined(separator: sep)`. */
  function Joined(parts: seq<string>, sep: string): (r: string)
    ensures parts == [] ==> r == []
    ensures |parts| == 1 ==> r == parts[0]
  {
    if parts == [] then []
    else if |parts| == 1 then parts[0]
    else parts[0] + sep + Joined(parts[1..], sep)
  }

  /** A piece with no separator, then the separator: the piece comes out first. */
  lemma {:induction false} PiecesAfter(a: string, sep: char, b: string)
    requires sep !in a
    ensures Pieces(a + [sep] + b, sep) == [a] + Pieces(b, sep)
  {
    if a == [] {
      assert a + [sep] + b == [sep] + b;
      assert ([sep] + b)[1..] == b;
    } else {
      var s := a + [sep] + b;
      assert s[0] == a[0] && s[1..] == a[1..] + [sep] + b;
      PiecesAfter(a[1..], sep, b);
      assert [a[0]] + a[1..] == a;
    }
  }

  /** A string with no separator is one piece. */
  lemma {:induction false} PiecesOfOne(a: string, sep: char)
    requires sep !in a
    ensures Pieces(a, sep) == [a]
  {
    if a != [] {
      PiecesOfOne(a[1..], sep);
      assert [a[0]] + a[1..] == a;
    }
  }

  /** Splitting what was joined with a one-character separator gives back the parts. */
  lemma {:induction false} PiecesOfJoined(parts: seq<string>, sep: char)
    requires parts != []
    requires forall k :: 0 <= k < |parts| ==> sep !in parts[k]
    ensures Pieces(Joined(parts, [sep]), sep) == parts
  {
    if |parts| == 1 {
      PiecesOfOne(parts[0], sep);
    } else {
      PiecesOfJoined(parts[1..], sep);
      PiecesAfter(parts[0], sep, Joined(parts[1..], [sep]));
      assert [parts[0]] + parts[1..] == parts;
    }
  }

  /** Splitting what was joined from non-empty parts without the separator gives the parts back. */
  lemma SplitOfJoined(parts: seq<string>, sep: char)
    requires parts != []
    requires forall k :: 0 <= k < |parts| ==> parts[k] != [] && sep !in parts[k]
    ensures Split(Joined(parts, [sep]), sep) == parts
  {
    PiecesOfJoined(parts, sep);
    Seqs.FilterKeepsAll(NonEmpty, parts);
  }

  /** Joining with `", "` is joining with `","` after putting a space in front of every part but the first. */
  lemma {:induction false} JoinedWithSpace(parts: seq<string>)
    requires parts != []
    ensures Joined(parts, ", ") == Joined([parts[0]] + Spaced(parts[1..]), ",")
  {
    if |parts| > 1 {
      var tail := parts[1..];
      JoinedWithSpace(tail);
      var spacedTail := [tail[0]] + Spaced(tail[1..]);
      assert Spaced(tail) == [[' '] + tail[0]] + Spaced(tail[1..]);
      var whole := [parts[0]] + Spaced(tail);
      assert whole[1..] == [[' '] + tail[0]] + Spaced(tail[1..]);
      JoinedFirstChanged(spacedTail, [' '] + tail[0], ",");
      assert parts[0] + ", " + Joined(tail, ", ") == parts[0] + "," + ([' '] + Joined(spacedTail, ","));
    }
  }

  /** Putting something in front of the first part puts it in front of the joined string. */
  lemma JoinedFirstChanged(parts: seq<string>, first: string, sep: string)
    requires parts != [] && first == [' '] + parts[0]
    ensures Joined([first] + parts[1..], sep) == [' '] + Joined(parts, sep)
  {
    var changed := [first] + parts[1..];
    assert changed[1..] == parts[1..];
  }

  /** Every part with a space put in front. */
  function Spaced(parts: seq<string>): (r: seq<string>)
    ensures |r| == |parts| && forall k :: 0 <= k < |parts| ==> r[k] == [' '] + parts[k]
  {
    if parts == [] then [] else [[' '] + parts[0]] + Spaced(parts[1..])
  }
}
