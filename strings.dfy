/**
 * The three string operations of Python that the pipeline relies on:
 * `str.split(sep)` with an explicit one-character separator, `sep.join(parts)`
 * and `str.strip()` with no argument.
 */
module Strings {

  /** The characters Python's `str.isspace()` accepts, which `str.strip()` removes. */
  predicate IsSpace(c: char) {
    || '\t' <= c <= '\r'
    || '\U{1C}' <= c <= ' '
    || c == '\U{85}'
    || c == '\U{A0}'
    || c == '\U{1680}'
    || '\U{2000}' <= c <= '\U{200A}'
    || c == '\U{2028}'
    || c == '\U{2029}'
    || c == '\U{202F}'
    || c == '\U{205F}'
    || c == '\U{3000}'
  }

  /** Every character of `s` is whitespace (the empty string included). */
  predicate AllSpace(s: string) {
    s == [] || (IsSpace(s[0]) && AllSpace(s[1..]))
  }

  lemma {:induction false} AllSpaceConcat(a: string, b: string)
    ensures AllSpace(a + b) <==> AllSpace(a) && AllSpace(b)
  {
    if a == [] {
      assert a + b == b;
    } else {
      assert (a + b)[1..] == a[1..] + b;
      AllSpaceConcat(a[1..], b);
    }
  }

  /** The number of whitespace characters `s.lstrip()` removes. */
  function LeadingSpaces(s: string): (n: nat)
    ensures n <= |s|
  {
    if s != [] && IsSpace(s[0]) then 1 + LeadingSpaces(s[1..]) else 0
  }

  /** What `lstrip` removes is whitespace, and it stops at the first other character. */
  lemma {:induction false} LeadingSpacesSpec(s: string)
    ensures AllSpace(s[..LeadingSpaces(s)])
    ensures LeadingSpaces(s) < |s| ==> !IsSpace(s[LeadingSpaces(s)])
  {
    if s != [] && IsSpace(s[0]) {
      var m := LeadingSpaces(s[1..]);
      assert LeadingSpaces(s) == 1 + m;
      LeadingSpacesSpec(s[1..]);
      assert s[..1 + m] == [s[0]] + s[1..][..m];
      assert ([s[0]] + s[1..][..m])[1..] == s[1..][..m];
    }
  }

  /** The number of whitespace characters `s.rstrip()` removes. */
  function TrailingSpaces(s: string): (n: nat)
    ensures n <= |s|
  {
    if s != [] && IsSpace(s[|s| - 1]) then 1 + TrailingSpaces(s[..|s| - 1]) else 0
  }

  /** What `rstrip` removes is whitespace, and it stops at the last other character. */
  lemma {:induction false} TrailingSpacesSpec(s: string)
    ensures AllSpace(s[|s| - TrailingSpaces(s)..])
    ensures TrailingSpaces(s) < |s| ==> !IsSpace(s[|s| - TrailingSpaces(s) - 1])
  {
    if s != [] && IsSpace(s[|s| - 1]) {
      var m := TrailingSpaces(s[..|s| - 1]);
      assert TrailingSpaces(s) == 1 + m;
      TrailingSpacesSpec(s[..|s| - 1]);
      assert s[|s| - (1 + m)..] == s[..|s| - 1][|s| - 1 - m..] + [s[|s| - 1]];
      AllSpaceConcat(s[..|s| - 1][|s| - 1 - m..], [s[|s| - 1]]);
    }
  }

  /** `s.strip()`: the string without its leading and trailing whitespace. */
  function Strip(s: string): string
  {
    var t := s[LeadingSpaces(s)..];
    t[..|t| - TrailingSpaces(t)]
  }

  /**
   * The stripped string keeps only characters of `s`, is empty exactly when
   * `s` is all whitespace, neither starts nor ends with whitespace, and is `s`
   * itself when `s` has no whitespace at its ends.
   */
  lemma {:induction false} StripSpec(s: string)
    ensures forall c :: c in Strip(s) ==> c in s
    ensures Strip(s) == [] <==> AllSpace(s)
    ensures Strip(s) != [] ==> !IsSpace(Strip(s)[0]) && !IsSpace(Strip(s)[|Strip(s)| - 1])
    ensures s == [] || (!IsSpace(s[0]) && !IsSpace(s[|s| - 1])) ==> Strip(s) == s
  {
    var i := LeadingSpaces(s);
    var t := s[i..];
    var j := TrailingSpaces(t);
    assert Strip(s) == t[..|t| - j];
    LeadingSpacesSpec(s);
    TrailingSpacesSpec(t);
    StripEmpty(s, t, i, j);
    StripEnds(s, t, i, j);
    StripKeeps(s, t, i, j);
    if s == [] || (!IsSpace(s[0]) && !IsSpace(s[|s| - 1])) {
      StripUntouched(s, t, i, j);
    }
  }

  lemma StripKeeps(s: string, t: string, i: nat, j: nat)
    requires i <= |s| && t == s[i..] && j <= |t|
    ensures forall c :: c in t[..|t| - j] ==> c in s
  {
    assert forall c :: c in t[..|t| - j] ==> c in t;
  }

  lemma StripEmpty(s: string, t: string, i: nat, j: nat)
    requires i == LeadingSpaces(s) && t == s[i..] && j == TrailingSpaces(t)
    requires AllSpace(s[..i]) && (i < |s| ==> !IsSpace(s[i]))
    requires AllSpace(t[|t| - j..]) && (j < |t| ==> !IsSpace(t[|t| - j - 1]))
    ensures t[..|t| - j] == [] <==> AllSpace(s)
  {
    assert s == s[..i] + t;
    AllSpaceConcat(s[..i], t);
    assert t[..|t| - j] == [] ==> t == t[|t| - j..];
  }

  lemma StripEnds(s: string, t: string, i: nat, j: nat)
    requires i == LeadingSpaces(s) && t == s[i..] && j == TrailingSpaces(t)
    requires AllSpace(s[..i]) && (i < |s| ==> !IsSpace(s[i]))
    requires AllSpace(t[|t| - j..]) && (j < |t| ==> !IsSpace(t[|t| - j - 1]))
    ensures var r := t[..|t| - j]; r != [] ==> !IsSpace(r[0]) && !IsSpace(r[|r| - 1])
  {
    var r := t[..|t| - j];
    if r != [] {
      assert r[0] == t[0] == s[i];
      assert r[|r| - 1] == t[|t| - j - 1];
    }
  }

  lemma StripUntouched(s: string, t: string, i: nat, j: nat)
    requires i == LeadingSpaces(s) && t == s[i..] && j == TrailingSpaces(t)
    requires AllSpace(s[..i]) && (i < |s| ==> !IsSpace(s[i]))
    requires AllSpace(t[|t| - j..]) && (j < |t| ==> !IsSpace(t[|t| - j - 1]))
    requires s == [] || (!IsSpace(s[0]) && !IsSpace(s[|s| - 1]))
    ensures t[..|t| - j] == s
  {
    if s != [] {
      SpaceAtEnds(s[..i]);
      SpaceAtEnds(t[|t| - j..]);
    }
  }

  /** A non-empty run of whitespace starts and ends with whitespace. */
  lemma {:induction false} SpaceAtEnds(s: string)
    ensures s != [] && AllSpace(s) ==> IsSpace(s[0]) && IsSpace(s[|s| - 1])
  {
    if |s| > 1 {
      SpaceAtEnds(s[1..]);
    }
  }

  /**
   * `s.split(sep)`: the pieces between separators, empty pieces included.
   * There is always at least one piece and no piece holds the separator.
   */
  function Split(s: string, sep: char): (parts: seq<string>)
    ensures |parts| >= 1
    ensures forall i :: 0 <= i < |parts| ==> sep !in parts[i]
  {
    if s == [] then [[]]
    else
      var rest := Split(s[1..], sep);
      if s[0] == sep then [[]] + rest
      else [[s[0]] + rest[0]] + rest[1..]
  }

  /** `sep.join(parts)`: the pieces with one separator between neighbours. */
  function Join(parts: seq<string>, sep: char): string
  {
    if |parts| == 0 then []
    else if |parts| == 1 then parts[0]
    else parts[0] + [sep] + Join(parts[1..], sep)
  }

  /** Joining the pieces of a split gives back the original string. */
  lemma {:induction false} JoinSplit(s: string, sep: char)
    ensures Join(Split(s, sep), sep) == s
  {
    if s != [] {
      var rest := Split(s[1..], sep);
      JoinSplit(s[1..], sep);
      if s[0] == sep {
        assert Split(s, sep) == [[]] + rest;
        assert ([[]] + rest)[1..] == rest;
      } else {
        var parts := [[s[0]] + rest[0]] + rest[1..];
        assert Split(s, sep) == parts;
        if |rest| == 1 {
          assert rest == [rest[0]];
        } else {
          assert parts[1..] == rest[1..];
          assert Join(rest, sep) == rest[0] + [sep] + Join(rest[1..], sep);
        }
      }
    }
  }

  /** A piece without separators splits to itself. */
  lemma {:induction false} SplitPiece(p: string, sep: char)
    requires sep !in p
    ensures Split(p, sep) == [p]
  {
    if p != [] {
      SplitPiece(p[1..], sep);
      assert [p[0]] + p[1..] == p;
    }
  }

  /** Splitting a piece followed by a separator peels that piece off. */
  lemma {:induction false} SplitCons(p: string, sep: char, t: string)
    requires sep !in p
    ensures Split(p + [sep] + t, sep) == [p] + Split(t, sep)
  {
    var s := p + [sep] + t;
    if p == [] {
      assert s == [sep] + t;
      assert s[1..] == t;
    } else {
      assert s[1..] == p[1..] + [sep] + t;
      SplitCons(p[1..], sep, t);
      assert [p[0]] + p[1..] == p;
    }
  }

  /**
   * Splitting a join recovers the pieces, provided there is at least one piece
   * and no piece holds the separator (`Join([]) == Join([""]) == ""`).
   */
  lemma {:induction false} SplitJoin(parts: seq<string>, sep: char)
    requires |parts| >= 1
    requires forall i :: 0 <= i < |parts| ==> sep !in parts[i]
    ensures Split(Join(parts, sep), sep) == parts
  {
    if |parts| == 1 {
      SplitPiece(parts[0], sep);
    } else {
      SplitJoin(parts[1..], sep);
      SplitCons(parts[0], sep, Join(parts[1..], sep));
      assert [parts[0]] + parts[1..] == parts;
    }
  }
}
