/**
 * The parts of Python's `str` that the policies use: whitespace and
 * character-set stripping, splitting on one separator character,
 * substring replacement and prefix tests.
 */
module Text {

  /** The characters Python's `str.strip()` removes: space, tab, LF, VT, FF, CR. */
  const Whitespace: set<char> := {' ', '\t', '\n', '\r', '\U{B}', '\U{C}'}

  predicate IsSpace(c: char) {
    c in Whitespace
  }

  /** `s.lstrip(cs)`: drops the longest prefix made only of characters of `cs`. */
  function LStripChars(s: string, cs: set<char>): (r: string)
    ensures |r| <= |s| && r == s[|s| - |r|..]
    ensures forall k :: 0 <= k < |s| - |r| ==> s[k] in cs
    ensures r == [] || r[0] !in cs
  {
    if s != [] && s[0] in cs then LStripChars(s[1..], cs) else s
  }

  /** Stripping a prefix of characters of `cs` from a string that then starts outside `cs` leaves that string. */
  lemma {:induction false} LStripPrefix(pre: string, s: string, cs: set<char>)
    requires forall k :: 0 <= k < |pre| ==> pre[k] in cs
    requires s == [] || s[0] !in cs
    ensures LStripChars(pre + s, cs) == s
  {
    if pre == [] {
      assert pre + s == s;
    } else {
      assert (pre + s)[1..] == pre[1..] + s;
      LStripPrefix(pre[1..], s, cs);
    }
  }

  /** `s.rstrip(cs)`: drops the longest suffix made only of characters of `cs`. */
  function RStripChars(s: string, cs: set<char>): (r: string)
    ensures |r| <= |s| && r == s[..|r|]
    ensures forall k :: |r| <= k < |s| ==> s[k] in cs
    ensures r == [] || r[|r| - 1] !in cs
  {
    if s != [] && s[|s| - 1] in cs then RStripChars(s[..|s| - 1], cs) else s
  }

  /** `s.strip()` */
  function Strip(s: string): string {
    RStripChars(LStripChars(s, Whitespace), Whitespace)
  }

  /** Stripping leaves a string alone exactly when it has no whitespace at either end. */
  lemma StripUnchanged(s: string)
    ensures Strip(s) == s <==> (s == [] || (!IsSpace(s[0]) && !IsSpace(s[|s| - 1])))
  {
    var l := LStripChars(s, Whitespace);
    if s != [] && !IsSpace(s[0]) && !IsSpace(s[|s| - 1]) {
      assert |s| - |l| == 0;
      assert l == s;
      var r := RStripChars(l, Whitespace);
      assert |r| == |l|;
    }
  }

  /** Stripping a string with one leading blank and a clean tail removes just the blank. */
  lemma StripLeadingBlank(s: string)
    requires s != [] && !IsSpace(s[0]) && !IsSpace(s[|s| - 1])
    ensures Strip([' '] + s) == s
  {
    var t := [' '] + s;
    assert t[1..] == s;
    assert LStripChars(t, Whitespace) == LStripChars(s, Whitespace);
    assert LStripChars(s, Whitespace) == s;
    StripUnchanged(s);
  }

  /**
   * `s.split(sep)` for a one-character separator: the pieces between
   * separators, including empty ones; never an empty list.
   */
  function Split(s: string, sep: char): (r: seq<string>)
    ensures |r| >= 1
    ensures forall k :: 0 <= k < |r| ==> sep !in r[k]
  {
    if s == [] then [[]]
    else
      var rest := Split(s[1..], sep);
      if s[0] == sep then [[]] + rest
      else [[s[0]] + rest[0]] + rest[1..]
  }

  /** `sep.join(parts)`, the inverse of Split. */
  function Join(parts: seq<string>, sep: char): string {
    if |parts| == 0 then []
    else if |parts| == 1 then parts[0]
    else parts[0] + [sep] + Join(parts[1..], sep)
  }

  lemma JoinTwo(a: string, b: string, sep: char)
    ensures Join([a, b], sep) == a + [sep] + b
  {
    assert [a, b][1..] == [b];
  }

  lemma JoinThree(a: string, b: string, c: string, sep: char)
    ensures Join([a, b, c], sep) == a + [sep] + b + [sep] + c
  {
    assert [a, b, c][1..] == [b, c];
    JoinTwo(b, c, sep);
  }

  /** Splitting then joining gives back the original string. */
  lemma {:induction false} JoinSplit(s: string, sep: char)
    ensures Join(Split(s, sep), sep) == s
  {
    if s != [] {
      var rest := Split(s[1..], sep);
      JoinSplit(s[1..], sep);
      if s[0] == sep {
        assert Split(s, sep) == [[]] + rest;
        assert s == [] + [sep] + s[1..];
      } else {
        var r := Split(s, sep);
        assert r == [[s[0]] + rest[0]] + rest[1..];
        if |rest| == 1 {
          assert s == [s[0]] + s[1..];
        } else {
          assert rest == [rest[0]] + rest[1..];
          assert Join(rest, sep) == rest[0] + [sep] + Join(rest[1..], sep);
          assert Join(r, sep) == [s[0]] + rest[0] + [sep] + Join(rest[1..], sep);
          assert s == [s[0]] + s[1..];
        }
      }
    }
  }

  /** Joining pieces that do not contain the separator, then splitting, gives back the pieces. */
  lemma {:induction false} SplitJoin(parts: seq<string>, sep: char)
    requires |parts| >= 1
    requires forall k :: 0 <= k < |parts| ==> sep !in parts[k]
    ensures Split(Join(parts, sep), sep) == parts
  {
    if |parts| == 1 {
      SplitNoSep(parts[0], sep);
    } else {
      SplitJoin(parts[1..], sep);
      SplitPrefix(parts[0], sep, Join(parts[1..], sep));
      assert parts == [parts[0]] + parts[1..];
    }
  }

  /** A string without the separator splits into itself alone. */
  lemma {:induction false} SplitNoSep(s: string, sep: char)
    requires sep !in s
    ensures Split(s, sep) == [s]
  {
    if s != [] {
      SplitNoSep(s[1..], sep);
      assert s == [s[0]] + s[1..];
    }
  }

  /** A separator-free head followed by the separator splits off as the first piece. */
  lemma {:induction false} SplitPrefix(head: string, sep: char, tail: string)
    requires sep !in head
    ensures Split(head + [sep] + tail, sep) == [head] + Split(tail, sep)
  {
    if head == [] {
      assert [] + [sep] + tail == [sep] + tail;
      assert ([sep] + tail)[1..] == tail;
    } else {
      var s := head + [sep] + tail;
      assert s[1..] == head[1..] + [sep] + tail;
      SplitPrefix(head[1..], sep, tail);
      assert head == [head[0]] + head[1..];
    }
  }

  /** Number of occurrences of `c` in `s`. */
  function Count(s: string, c: char): nat {
    if s == [] then 0 else (if s[0] == c then 1 else 0) + Count(s[1..], c)
  }

  /** A split yields one more piece than there are separators. */
  lemma {:induction false} SplitCount(s: string, sep: char)
    ensures |Split(s, sep)| == Count(s, sep) + 1
  {
    if s != [] {
      SplitCount(s[1..], sep);
    }
  }

  /** `pat` occurs in `s` at position `i`. */
  predicate OccursAt(s: string, pat: string, i: nat) {
    i + |pat| <= |s| && s[i..i + |pat|] == pat
  }

  /**
   * `s.replace(pat, rep)`: every non-overlapping occurrence of the
   * non-empty `pat`, scanning left to right, is replaced by `rep`.
   */
  function Replace(s: string, pat: string, rep: string): string
    requires pat != []
  {
    if |s| < |pat| then s
    else if pat <= s then rep + Replace(s[|pat|..], pat, rep)
    else [s[0]] + Replace(s[1..], pat, rep)
  }

  /** Replacement changes nothing when the pattern does not occur. */
  lemma {:induction false} ReplaceAbsent(s: string, pat: string, rep: string)
    requires pat != []
    requires forall i: nat :: !OccursAt(s, pat, i)
    ensures Replace(s, pat, rep) == s
  {
    if |s| >= |pat| {
      assert !OccursAt(s, pat, 0);
      assert !(pat <= s);
      forall i: nat ensures !OccursAt(s[1..], pat, i) {
        assert !OccursAt(s, pat, i + 1);
        if i + |pat| <= |s[1..]| {
          assert s[1..][i..i + |pat|] == s[i + 1..i + 1 + |pat|];
        }
      }
      ReplaceAbsent(s[1..], pat, rep);
      assert s == [s[0]] + s[1..];
    }
  }

  /** `pat` occurs in `head + pat` only at the end: no occurrence starts inside `head`. */
  predicate OnlyAtEnd(head: string, pat: string) {
    forall i: nat :: i < |head| ==> !OccursAt(head + pat, pat, i)
  }

  /** A head without the pattern's first character cannot hold the start of an occurrence. */
  lemma FirstCharAbsent(head: string, pat: string)
    requires pat != [] && pat[0] !in head
    ensures OnlyAtEnd(head, pat)
  {
    forall i: nat | i < |head| ensures !OccursAt(head + pat, pat, i) {
      assert (head + pat)[i] == head[i];
    }
  }

  /**
   * Replacement when the pattern is a suffix of `s` and occurs nowhere
   * earlier: the suffix is rewritten and the head kept.
   */
  lemma {:induction false} ReplaceSuffix(head: string, pat: string, rep: string)
    requires pat != [] && OnlyAtEnd(head, pat)
    ensures Replace(head + pat, pat, rep) == head + rep
  {
    var s := head + pat;
    if head == [] {
      assert s == pat;
      assert pat <= s;
      assert Replace(s[|pat|..], pat, rep) == [];
    } else {
      assert !OccursAt(s, pat, 0);
      assert !(pat <= s);
      assert |s| >= |pat|;
      assert Replace(s, pat, rep) == [s[0]] + Replace(s[1..], pat, rep);
      assert s[1..] == head[1..] + pat;
      forall i: nat | i < |head[1..]| ensures !OccursAt(head[1..] + pat, pat, i) {
        assert !OccursAt(s, pat, i + 1);
        assert s[i + 1..i + 1 + |pat|] == (head[1..] + pat)[i..i + |pat|];
      }
      ReplaceSuffix(head[1..], pat, rep);
      assert head == [head[0]] + head[1..];
    }
  }
}
