/**
 * The parts of java.lang.String that the renderer relies on, for literal
 * (regex-free) patterns: `split`, `startsWith`, `replace(" ", "")` and an
 * ASCII `toLowerCase`.
 */
module JavaStrings {

  /** `prefix` is a prefix of `s` (String.startsWith). */
  predicate StartsWith(s: string, prefix: string) {
    |prefix| <= |s| && s[..|prefix|] == prefix
  }

  /** The pieces glued back together with the delimiter between them. */
  function Join(parts: seq<string>, d: string): string
    requires |parts| >= 1
  {
    if |parts| == 1 then parts[0] else parts[0] + d + Join(parts[1..], d)
  }

  /**
   * Cuts `s` at every leftmost, non-overlapping occurrence of the literal `d`,
   * keeping every piece (also the empty ones): k occurrences give k + 1 pieces.
   */
  function SplitAll(s: string, d: string): (parts: seq<string>)
    requires d != []
    ensures |parts| >= 1
    decreases |s|
  {
    if |s| < |d| then [s]
    else if s[..|d|] == d then [""] + SplitAll(s[|d|..], d)
    else
      var rest := SplitAll(s[1..], d);
      [[s[0]] + rest[0]] + rest[1..]
  }

  /** Gluing the pieces back together with the delimiter gives the original string. */
  lemma {:induction false} SplitAllJoin(s: string, d: string)
    requires d != []
    ensures Join(SplitAll(s, d), d) == s
    decreases |s|
  {
    if |s| < |d| {
    } else if s[..|d|] == d {
      var rest := SplitAll(s[|d|..], d);
      SplitAllJoin(s[|d|..], d);
      assert SplitAll(s, d) == [""] + rest;
      assert ([""] + rest)[1..] == rest;
      assert Join([""] + rest, d) == "" + d + Join(rest, d);
      assert s == d + s[|d|..];
    } else {
      var rest := SplitAll(s[1..], d);
      SplitAllJoin(s[1..], d);
      var parts := [[s[0]] + rest[0]] + rest[1..];
      assert SplitAll(s, d) == parts;
      assert s == [s[0]] + s[1..];
      if |rest| > 1 {
        assert parts[1..] == rest[1..];
        assert Join(parts, d) == [s[0]] + rest[0] + d + Join(rest[1..], d);
        assert Join(rest, d) == rest[0] + d + Join(rest[1..], d);
      } else {
        assert Join(parts, d) == [s[0]] + rest[0];
      }
    }
  }

  /** The pieces glued back together, when all are empty, consist of delimiters only. */
  lemma {:induction false} JoinOfEmpties(parts: seq<string>, c: char)
    requires |parts| >= 1 && forall k :: 0 <= k < |parts| ==> parts[k] == ""
    ensures forall i :: 0 <= i < |Join(parts, [c])| ==> Join(parts, [c])[i] == c
    ensures |Join(parts, [c])| == |parts| - 1
    decreases |parts|
  {
    if |parts| > 1 {
      JoinOfEmpties(parts[1..], c);
    }
  }

  /** No piece of a split on one character contains that character. */
  lemma {:induction false} SplitAllNoDelimiter(s: string, c: char)
    ensures forall k :: 0 <= k < |SplitAll(s, [c])| ==> c !in SplitAll(s, [c])[k]
    decreases |s|
  {
    var parts := SplitAll(s, [c]);
    if |s| < 1 {
      assert parts == [s];
    } else if s[..1] == [c] {
      SplitAllNoDelimiter(s[1..], c);
      var rest := SplitAll(s[1..], [c]);
      forall k | 0 <= k < |parts| ensures c !in parts[k] {
        if k > 0 {
          assert parts[k] == rest[k - 1];
        }
      }
    } else {
      SplitAllNoDelimiter(s[1..], c);
      assert s[0] != c by {
        assert s[..1] == [s[0]];
      }
    }
  }

  /** A string in which the delimiter's first character never occurs is not cut at all. */
  lemma {:induction false} SplitAllNoLead(s: string, d: string)
    requires d != [] && d[0] !in s
    ensures SplitAll(s, d) == [s]
    decreases |s|
  {
    if |s| >= |d| {
      assert s[..|d|][0] == s[0];
      SplitAllNoLead(s[1..], d);
      assert s == [s[0]] + s[1..];
    }
  }

  /** A string that starts with the delimiter begins with an empty piece. */
  lemma SplitAllLeading(s: string, d: string)
    requires d != []
    ensures SplitAll(d + s, d) == [""] + SplitAll(s, d)
  {
    assert (d + s)[..|d|] == d;
    assert (d + s)[|d|..] == s;
  }

  /** Appending a separator and a separator-free tail adds exactly that tail as the last piece. */
  lemma {:induction false} SplitAllSuffix(a: string, c: char, e: string)
    requires c !in e
    ensures SplitAll(a + [c] + e, [c]) == SplitAll(a, [c]) + [e]
    decreases |a|
  {
    var s := a + [c] + e;
    if a == [] {
      assert s == [c] + e;
      SplitAllLeading(e, [c]);
      SplitAllNoLead(e, [c]);
    } else {
      assert s[0] == a[0] && s[1..] == a[1..] + [c] + e;
      assert s[..1] == [a[0]];
      SplitAllSuffix(a[1..], c, e);
      if a[0] != c {
        assert |a| >= 1 && a[..1] == [a[0]];
        var r := SplitAll(a[1..], [c]);
        assert (r + [e])[1..] == r[1..] + [e];
      }
    }
  }

  /** The literal `d` occurs in `s` at index i. */
  predicate OccursAt(s: string, d: string, i: int) {
    0 <= i && i + |d| <= |s| && s[i..i + |d|] == d
  }

  /** The literal `d` occurs somewhere in `s`. */
  predicate Contains(s: string, d: string) {
    exists i | 0 <= i <= |s| :: OccursAt(s, d, i)
  }

  /** A string in which the delimiter does not occur is one piece. */
  lemma {:induction false} SplitAllNoMatch(s: string, d: string)
    requires d != [] && !Contains(s, d)
    ensures SplitAll(s, d) == [s]
    decreases |s|
  {
    if |s| >= |d| {
      assert s[..|d|] != d by {
        assert !OccursAt(s, d, 0);
      }
      assert !Contains(s[1..], d) by {
        forall i | OccursAt(s[1..], d, i) ensures false {
          assert s[1..][i..i + |d|] == s[i + 1..i + 1 + |d|];
          assert OccursAt(s, d, i + 1);
        }
      }
      SplitAllNoMatch(s[1..], d);
      assert s == [s[0]] + s[1..];
    }
  }

  /** A string made of the one-character delimiter alone is cut into one more piece than it has characters, all empty. */
  lemma {:induction false} SplitAllOfDelimiters(s: string, c: char)
    requires forall i :: 0 <= i < |s| ==> s[i] == c
    ensures |SplitAll(s, [c])| == |s| + 1
    ensures forall k :: 0 <= k < |SplitAll(s, [c])| ==> SplitAll(s, [c])[k] == ""
    decreases |s|
  {
    if s != [] {
      assert s[..1] == [c];
      SplitAllOfDelimiters(s[1..], c);
      assert SplitAll(s, [c]) == [""] + SplitAll(s[1..], [c]);
    }
  }

  /** Drops the empty strings at the end, as String.split with limit 0 does. */
  function DropTrailingEmpty(parts: seq<string>): seq<string> {
    if parts == [] || parts[|parts| - 1] != "" then parts
    else DropTrailingEmpty(parts[..|parts| - 1])
  }

  /** What is dropped is a suffix of empty strings, and what stays does not end in one. */
  lemma {:induction false} DropTrailingEmptySpec(parts: seq<string>)
    ensures var r := DropTrailingEmpty(parts);
            && |r| <= |parts| && r == parts[..|r|]
            && (forall k :: |r| <= k < |parts| ==> parts[k] == "")
            && (r == [] || r[|r| - 1] != "")
    decreases |parts|
  {
    if parts != [] && parts[|parts| - 1] == "" {
      var init := parts[..|parts| - 1];
      DropTrailingEmptySpec(init);
      var r := DropTrailingEmpty(init);
      assert parts[..|r|] == init[..|r|];
    }
  }

  /** A list of empty strings is dropped entirely. */
  lemma {:induction false} DropTrailingEmptyAllEmpty(parts: seq<string>)
    requires forall k :: 0 <= k < |parts| ==> parts[k] == ""
    ensures DropTrailingEmpty(parts) == []
    decreases |parts|
  {
    if parts != [] {
      DropTrailingEmptyAllEmpty(parts[..|parts| - 1]);
    }
  }

  /**
   * String.split with a literal pattern: when the pattern does not occur the
   * result is the string itself (so "" gives [""]); otherwise the pieces with
   * the trailing empty ones dropped.
   */
  function Split(s: string, d: string): seq<string>
    requires d != []
  {
    var parts := SplitAll(s, d);
    if |parts| == 1 then parts else DropTrailingEmpty(parts)
  }

  /** Split keeps a prefix of all the pieces and drops only empty ones. */
  lemma SplitSpec(s: string, d: string)
    requires d != []
    ensures var r, all := Split(s, d), SplitAll(s, d);
            && |r| <= |all| && r == all[..|r|]
            && (forall k :: |r| <= k < |all| ==> all[k] == "")
            && (|all| == 1 ==> r == [s])
            && (|all| > 1 ==> r == [] || r[|r| - 1] != "")
  {
    var all := SplitAll(s, d);
    if |all| == 1 {
      SplitAllJoin(s, d);
    } else {
      DropTrailingEmptySpec(all);
    }
  }

  /** Every piece of a split on a single character is free of that character. */
  lemma SplitOnCharHasNoDelimiter(s: string, c: char)
    ensures forall k :: 0 <= k < |Split(s, [c])| ==> c !in Split(s, [c])[k]
  {
    var all := SplitAll(s, [c]);
    var r := Split(s, [c]);
    SplitSpec(s, [c]);
    SplitAllNoDelimiter(s, c);
    forall k | 0 <= k < |r| ensures c !in r[k] {
      assert r[k] == all[k];
    }
  }

  /** String.replace(" ", ""): every space removed, all else kept in order. */
  function RemoveSpaces(s: string): (r: string)
    ensures ' ' !in r
    ensures |r| <= |s|
    ensures forall c :: c != ' ' ==> multiset(r)[c] == multiset(s)[c]
    ensures |s| == 1 ==> r == (if s[0] == ' ' then [] else s)
    decreases |s|
  {
    if s == [] then []
    else
      assert s == [s[0]] + s[1..];
      (if s[0] == ' ' then [] else [s[0]]) + RemoveSpaces(s[1..])
  }

  /** Removing spaces works piece by piece. */
  lemma {:induction false} RemoveSpacesAppend(a: string, b: string)
    ensures RemoveSpaces(a + b) == RemoveSpaces(a) + RemoveSpaces(b)
    decreases |a|
  {
    if a != [] {
      assert (a + b)[0] == a[0] && (a + b)[1..] == a[1..] + b;
      RemoveSpacesAppend(a[1..], b);
    } else {
      assert a + b == b;
    }
  }

  /** A string without spaces is left as it is. */
  lemma {:induction false} RemoveSpacesNoSpace(s: string)
    requires ' ' !in s
    ensures RemoveSpaces(s) == s
    decreases |s|
  {
    if s != [] {
      assert s[0] in s;
      assert forall c :: c in s[1..] ==> c in s;
      RemoveSpacesNoSpace(s[1..]);
      assert s == [s[0]] + s[1..];
    }
  }

  /** Lower-casing works piece by piece. */
  lemma LowerAppend(a: string, b: string)
    ensures Lower(a + b) == Lower(a) + Lower(b)
  {
  }

  /** An ASCII capital letter. */
  predicate IsUpper(c: char) {
    'A' <= c <= 'Z'
  }

  function LowerChar(c: char): char {
    if IsUpper(c) then (c as int - 'A' as int + 'a' as int) as char else c
  }

  /**
   * String.toLowerCase restricted to ASCII letters: no capital is left, each
   * capital becomes its small letter (32 code points further), and every
   * other character stays where it was.
   */
  function Lower(s: string): (r: string)
    ensures |r| == |s|
    ensures forall i :: 0 <= i < |r| ==> !IsUpper(r[i])
    ensures forall i :: 0 <= i < |s| && IsUpper(s[i]) ==> r[i] as int == s[i] as int + 32
    ensures forall i :: 0 <= i < |s| && !IsUpper(s[i]) ==> r[i] == s[i]
  {
    seq(|s|, i requires 0 <= i < |s| => LowerChar(s[i]))
  }

  /** Lower-casing twice is lower-casing once, and it changes a string exactly when the string has a capital. */
  lemma LowerIdempotent(s: string)
    ensures Lower(Lower(s)) == Lower(s)
    ensures Lower(s) == s <==> forall i :: 0 <= i < |s| ==> !IsUpper(s[i])
  {
    if Lower(s) == s {
      forall i | 0 <= i < |s| ensures !IsUpper(s[i]) {
        assert s[i] == Lower(s)[i];
      }
    }
  }
}
