/**
 * String helpers shared by the rating engine and the viewer: whitespace
 * stripping (Python's str.strip and JavaScript's String.prototype.trim),
 * splitting on a separator, and the default lexicographic order used by
 * Array.prototype.sort.
 */
module Text {

  // ---------------------------------------------------------------------
  // Whitespace
  // ---------------------------------------------------------------------

  /** Characters Python's str.isspace accepts (the set str.strip removes). */
  predicate IsPySpace(c: char)
  {
    c == ' ' || ('\t' <= c <= '\r') || ('\U{1C}' <= c <= '\U{1F}') || c == '\U{85}' ||
    c == '\U{A0}' || c == '\U{1680}' || ('\U{2000}' <= c <= '\U{200A}') ||
    c == '\U{2028}' || c == '\U{2029}' || c == '\U{202F}' || c == '\U{205F}' || c == '\U{3000}'
  }

  /** Characters JavaScript's trim removes: WhiteSpace and LineTerminator. */
  predicate IsJsSpace(c: char)
  {
    c == ' ' || ('\t' <= c <= '\r') || c == '\U{A0}' || c == '\U{FEFF}' ||
    c == '\U{1680}' || ('\U{2000}' <= c <= '\U{200A}') ||
    c == '\U{2028}' || c == '\U{2029}' || c == '\U{202F}' || c == '\U{205F}' || c == '\U{3000}'
  }

  /** Drops leading characters satisfying isSpace. */
  function TrimLeft(s: string, isSpace: char -> bool): (r: string)
    ensures |r| <= |s|
    decreases |s|
  {
    if |s| > 0 && isSpace(s[0]) then TrimLeft(s[1..], isSpace) else s
  }

  /** Drops trailing characters satisfying isSpace. */
  function TrimRight(s: string, isSpace: char -> bool): (r: string)
    ensures |r| <= |s|
    decreases |s|
  {
    if |s| > 0 && isSpace(s[|s| - 1]) then TrimRight(s[..|s| - 1], isSpace) else s
  }

  /**
   * TrimLeft keeps a suffix of s that does not start with whitespace, and
   * everything it drops is whitespace.
   */
  lemma {:induction false} TrimLeftFacts(s: string, isSpace: char -> bool)
    ensures var r := TrimLeft(s, isSpace);
      && r == s[|s| - |r|..]
      && (r == [] || !isSpace(r[0]))
      && (forall k :: 0 <= k < |s| - |r| ==> isSpace(s[k]))
    decreases |s|
  {
    if |s| > 0 && isSpace(s[0]) {
      var t := s[1..];
      TrimLeftFacts(t, isSpace);
      var r := TrimLeft(t, isSpace);
      assert TrimLeft(s, isSpace) == r;
      assert t[|t| - |r|..] == s[|s| - |r|..];
      forall k | 0 <= k < |s| - |r| ensures isSpace(s[k]) {
        if k > 0 {
          assert s[k] == t[k - 1];
        }
      }
    }
  }

  /**
   * TrimRight keeps a prefix of s that does not end with whitespace, and
   * everything it drops is whitespace.
   */
  lemma {:induction false} TrimRightFacts(s: string, isSpace: char -> bool)
    ensures var r := TrimRight(s, isSpace);
      && r == s[..|r|]
      && (r == [] || !isSpace(r[|r| - 1]))
      && (forall k :: |r| <= k < |s| ==> isSpace(s[k]))
    decreases |s|
  {
    if |s| > 0 && isSpace(s[|s| - 1]) {
      var t := s[..|s| - 1];
      TrimRightFacts(t, isSpace);
      var r := TrimRight(t, isSpace);
      assert TrimRight(s, isSpace) == r;
      assert t[..|r|] == s[..|r|];
      forall k | |r| <= k < |s| ensures isSpace(s[k]) {
        if k < |s| - 1 {
          assert s[k] == t[k];
        }
      }
    }
  }

  /** Removes whitespace at both ends. */
  function Strip(s: string, isSpace: char -> bool): string
  {
    TrimRight(TrimLeft(s, isSpace), isSpace)
  }

  /** Neither the first nor the last character is whitespace. */
  predicate Trimmed(s: string, isSpace: char -> bool)
  {
    s == [] || (!isSpace(s[0]) && !isSpace(s[|s| - 1]))
  }

  /** Python's str.strip(): no whitespace is left at either end. */
  function PyStrip(s: string): (r: string)
    ensures Trimmed(r, IsPySpace)
  {
    StripEnds(s, IsPySpace);
    Strip(s, IsPySpace)
  }

  /** JavaScript's String.prototype.trim(): no whitespace is left at either end. */
  function JsTrim(s: string): (r: string)
    ensures Trimmed(r, IsJsSpace)
  {
    StripEnds(s, IsJsSpace);
    Strip(s, IsJsSpace)
  }

  /** The stripped string neither starts nor ends with whitespace. */
  lemma StripEnds(s: string, isSpace: char -> bool)
    ensures Trimmed(Strip(s, isSpace), isSpace)
  {
    var l := TrimLeft(s, isSpace);
    var r := TrimRight(l, isSpace);
    TrimLeftFacts(s, isSpace);
    TrimRightFacts(l, isSpace);
    if r != [] {
      assert r[0] == l[0];
    }
  }

  /**
   * The stripped string is the slice of s that follows its leading
   * whitespace run and precedes its trailing one.
   */
  lemma StripIsSlice(s: string, isSpace: char -> bool)
    ensures var r, i := Strip(s, isSpace), |s| - |TrimLeft(s, isSpace)|;
      && 0 <= i <= |s| - |r| && r == s[i..i + |r|]
      && (forall k :: 0 <= k < i ==> isSpace(s[k]))
      && (forall k :: i + |r| <= k < |s| ==> isSpace(s[k]))
  {
    var l := TrimLeft(s, isSpace);
    var r := TrimRight(l, isSpace);
    var i := |s| - |l|;
    TrimLeftFacts(s, isSpace);
    TrimRightFacts(l, isSpace);
    assert l == s[i..];
    assert r == l[..|r|];
    forall k | i + |r| <= k < |s| ensures isSpace(s[k]) {
      assert s[k] == l[k - i];
    }
  }

  /** A string strips to nothing exactly when every character is whitespace. */
  lemma StripEmptyIffBlank(s: string, isSpace: char -> bool)
    ensures Strip(s, isSpace) == [] <==> forall k :: 0 <= k < |s| ==> isSpace(s[k])
  {
    StripEnds(s, isSpace);
    StripIsSlice(s, isSpace);
    var r := Strip(s, isSpace);
    if r != [] {
      assert r[0] == s[|s| - |TrimLeft(s, isSpace)|];
    }
  }

  /** Stripping twice is the same as stripping once. */
  lemma StripIdempotent(s: string, isSpace: char -> bool)
    ensures Strip(Strip(s, isSpace), isSpace) == Strip(s, isSpace)
  {
    StripEnds(s, isSpace);
    var r := Strip(s, isSpace);
    assert TrimLeft(r, isSpace) == r;
    assert TrimRight(r, isSpace) == r;
  }

  // ---------------------------------------------------------------------
  // Split and join
  // ---------------------------------------------------------------------

  /**
   * Splits s at every occurrence of sep, as String.prototype.split with a
   * one-character separator does: the empty string gives [""], and a
   * separator at either end gives an empty first or last piece.
   */
  function Split(s: string, sep: char): (r: seq<string>)
    ensures |r| >= 1
    ensures forall p :: p in r ==> sep !in p
    decreases |s|
  {
    if |s| == 0 then [""]
    else if s[0] == sep then [""] + Split(s[1..], sep)
    else
      var rest := Split(s[1..], sep);
      [[s[0]] + rest[0]] + rest[1..]
  }

  /** Joins pieces with sep between consecutive ones. */
  function Join(parts: seq<string>, sep: char): string
  {
    if |parts| == 0 then ""
    else if |parts| == 1 then parts[0]
    else parts[0] + [sep] + Join(parts[1..], sep)
  }

  /** Joining the pieces of a split gives back the original text. */
  lemma {:induction false} JoinSplit(s: string, sep: char)
    ensures Join(Split(s, sep), sep) == s
    decreases |s|
  {
    if |s| == 0 {
    } else if s[0] == sep {
      JoinSplit(s[1..], sep);
      var rest := Split(s[1..], sep);
      assert Split(s, sep) == [""] + rest;
      assert ([""] + rest)[1..] == rest;
    } else {
      JoinSplit(s[1..], sep);
      var rest := Split(s[1..], sep);
      var head := [s[0]] + rest[0];
      assert Split(s, sep) == [head] + rest[1..];
      if |rest| == 1 {
        assert s == [s[0]] + s[1..];
      } else {
        assert ([head] + rest[1..])[1..] == rest[1..];
        assert Join(rest, sep) == rest[0] + [sep] + Join(rest[1..], sep);
        assert s == [s[0]] + s[1..];
      }
    }
  }

  /** Splitting a join of separator-free pieces gives back the pieces. */
  lemma {:induction false} SplitJoin(parts: seq<string>, sep: char)
    requires |parts| >= 1
    requires forall p :: p in parts ==> sep !in p
    ensures Split(Join(parts, sep), sep) == parts
    decreases |parts|, |parts[0]|
  {
    var p := parts[0];
    if |parts| == 1 {
      SplitNoSep(p, sep);
    } else if p == [] {
      var tail := Join(parts[1..], sep);
      assert Join(parts, sep) == [sep] + tail;
      assert ([sep] + tail)[1..] == tail;
      SplitJoin(parts[1..], sep);
      assert parts == [""] + parts[1..];
    } else {
      var shorter := [p[1..]] + parts[1..];
      DropFirstChar(parts, sep);
      SplitJoin(shorter, sep);
      assert p[0] in p;
      SplitCons(p[0], Join(shorter, sep), sep);
      assert [p[0]] + p[1..] == p;
      assert parts == [p] + parts[1..];
    }
  }

  /**
   * Moving the first character of the first piece out of a join: the rest
   * stays separator-free and joins to the remaining text.
   */
  lemma DropFirstChar(parts: seq<string>, sep: char)
    requires |parts| >= 2 && parts[0] != []
    requires forall p :: p in parts ==> sep !in p
    ensures var shorter := [parts[0][1..]] + parts[1..];
      && (forall q :: q in shorter ==> sep !in q)
      && Join(parts, sep) == [parts[0][0]] + Join(shorter, sep)
      && shorter[1..] == parts[1..]
  {
    var p := parts[0];
    var shorter := [p[1..]] + parts[1..];
    assert shorter[1..] == parts[1..];
    forall q | q in shorter ensures sep !in q {
      if q == p[1..] {
        assert forall c :: c in q ==> c in p;
      } else {
        assert q in parts;
      }
    }
    assert Join(shorter, sep) == p[1..] + [sep] + Join(parts[1..], sep);
    assert p == [p[0]] + p[1..];
  }

  /** A leading non-separator character joins the first piece. */
  lemma SplitCons(c: char, s: string, sep: char)
    requires c != sep
    ensures var rest := Split(s, sep); Split([c] + s, sep) == [[c] + rest[0]] + rest[1..]
  {
    assert ([c] + s)[0] == c && ([c] + s)[1..] == s;
  }

  /** A separator-free string splits into itself alone. */
  lemma {:induction false} SplitNoSep(s: string, sep: char)
    requires sep !in s
    ensures Split(s, sep) == [s]
    decreases |s|
  {
    if |s| > 0 {
      assert s[1..] == s[1..] && forall c :: c in s[1..] ==> c in s;
      SplitNoSep(s[1..], sep);
      assert [s[0]] + s[1..] == s;
    }
  }

  /** Joining concatenated piece lists puts one separator between the two joins. */
  lemma {:induction false} JoinAppend(a: seq<string>, b: seq<string>, sep: char)
    requires |a| >= 1 && |b| >= 1
    ensures Join(a + b, sep) == Join(a, sep) + [sep] + Join(b, sep)
    decreases |a|
  {
    if |a| == 1 {
      assert (a + b)[1..] == b;
    } else {
      JoinAppend(a[1..], b, sep);
      assert (a + b)[1..] == a[1..] + b;
    }
  }

  /** Splitting at a separator splits the two sides independently. */
  lemma SplitAppend(a: string, b: string, sep: char)
    ensures Split(a + [sep] + b, sep) == Split(a, sep) + Split(b, sep)
  {
    var pa, pb := Split(a, sep), Split(b, sep);
    JoinSplit(a, sep);
    JoinSplit(b, sep);
    JoinAppend(pa, pb, sep);
    assert forall p :: p in pa + pb ==> p in pa || p in pb;
    SplitJoin(pa + pb, sep);
  }

  /** A separator-free piece between two separators becomes one piece of its own. */
  lemma SplitAround(a: string, m: string, b: string, sep: char)
    requires sep !in m
    ensures Split(a + [sep] + m + [sep] + b, sep) == Split(a, sep) + [m] + Split(b, sep)
  {
    assert a + [sep] + m + [sep] + b == a + [sep] + (m + [sep] + b);
    SplitAppend(a, m + [sep] + b, sep);
    SplitAppend(m, b, sep);
    SplitNoSep(m, sep);
  }

  // ---------------------------------------------------------------------
  // Lexicographic order
  // ---------------------------------------------------------------------

  /**
   * Strict lexicographic order on strings by character code, the order
   * Array.prototype.sort uses when it is given no comparator.
   */
  predicate Less(a: string, b: string)
    ensures |a| < |b| && a == b[..|a|] ==> Less(a, b)
    decreases |a|
  {
    if |a| == 0 then |b| > 0
    else if |b| == 0 then false
    else if a[0] != b[0] then a[0] < b[0]
    else
      assert |a| <= |b| && a == b[..|a|] ==> a[1..] == b[1..][..|a| - 1];
      Less(a[1..], b[1..])
  }

  /** After a common prefix, the first differing character decides the order. */
  lemma {:induction false} LessFirstDifference(a: string, b: string, i: nat)
    requires i < |a| && i < |b| && a[..i] == b[..i] && a[i] != b[i]
    ensures Less(a, b) <==> a[i] < b[i]
    decreases i
  {
    if i > 0 {
      assert a[0] == a[..i][0] == b[..i][0] == b[0];
      assert a[1..][..i - 1] == a[..i][1..] == b[..i][1..] == b[1..][..i - 1];
      LessFirstDifference(a[1..], b[1..], i - 1);
    }
  }

  lemma {:induction false} LessIrreflexive(a: string)
    ensures !Less(a, a)
    decreases |a|
  {
    if |a| > 0 { LessIrreflexive(a[1..]); }
  }

  lemma {:induction false} LessTransitive(a: string, b: string, c: string)
    requires Less(a, b) && Less(b, c)
    ensures Less(a, c)
    decreases |a|
  {
    if |a| > 0 && a[0] == b[0] && b[0] == c[0] {
      LessTransitive(a[1..], b[1..], c[1..]);
    }
  }

  lemma {:induction false} LessTotal(a: string, b: string)
    requires a != b
    ensures Less(a, b) || Less(b, a)
    decreases |a|
  {
    if |a| > 0 && |b| > 0 && a[0] == b[0] {
      assert a == [a[0]] + a[1..] && b == [b[0]] + b[1..];
      LessTotal(a[1..], b[1..]);
    }
  }

  lemma {:induction false} LessAsymmetric(a: string, b: string)
    requires Less(a, b)
    ensures !Less(b, a)
    decreases |a|
  {
    if |a| > 0 && |b| > 0 && a[0] == b[0] {
      LessAsymmetric(a[1..], b[1..]);
    }
  }

  /** Strictly ascending, hence also free of duplicates. */
  predicate StrictlySorted(s: seq<string>)
  {
    forall i, j :: 0 <= i < j < |s| ==> Less(s[i], s[j])
  }

  /** Inserts x into a strictly ascending sequence unless it is already there. */
  function Insert(s: seq<string>, x: string): (r: seq<string>)
    requires StrictlySorted(s)
    ensures StrictlySorted(r)
    ensures forall y :: y in r <==> y in s || y == x
    decreases |s|
  {
    if |s| == 0 then [x]
    else if x == s[0] then s
    else if Less(x, s[0]) then
      assert forall j :: 0 < j < |s| ==> Less(x, s[j]) by {
        forall j | 0 < j < |s| ensures Less(x, s[j]) { LessTransitive(x, s[0], s[j]); }
      }
      [x] + s
    else
      LessTotal(x, s[0]);
      var rest := Insert(s[1..], x);
      assert forall y :: y in rest ==> Less(s[0], y);
      [s[0]] + rest
  }

  /** Two strictly ascending sequences with the same elements start alike. */
  lemma SortedHeadsAgree(a: seq<string>, b: seq<string>)
    requires StrictlySorted(a) && StrictlySorted(b)
    requires forall y :: y in a <==> y in b
    requires |a| > 0 && |b| > 0
    ensures a[0] == b[0]
  {
    assert a[0] in a && b[0] in b;
    var i :| 0 <= i < |a| && a[i] == b[0];
    var j :| 0 <= j < |b| && b[j] == a[0];
    if i > 0 && j > 0 {
      LessAsymmetric(a[0], a[i]);
      assert false;
    }
  }

  /** A set of strings has only one strictly ascending arrangement. */
  lemma {:induction false} SortedUnique(a: seq<string>, b: seq<string>)
    requires StrictlySorted(a) && StrictlySorted(b)
    requires forall y :: y in a <==> y in b
    ensures a == b
    decreases |a|
  {
    if |a| > 0 { assert a[0] in b; }
    if |b| > 0 { assert b[0] in a; }
    if |a| > 0 && |b| > 0 {
      SortedHeadsAgree(a, b);
      forall y ensures y in a[1..] <==> y in b[1..] {
        if y in a[1..] {
          var i :| 1 <= i < |a| && a[i] == y;
          LessIrreflexive(a[0]);
          assert y in b;
        }
        if y in b[1..] {
          var i :| 1 <= i < |b| && b[i] == y;
          LessIrreflexive(b[0]);
          assert y in a;
        }
      }
      SortedUnique(a[1..], b[1..]);
      assert a == [a[0]] + a[1..] && b == [b[0]] + b[1..];
    }
  }
}
