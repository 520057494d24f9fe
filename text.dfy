/**
 * The few System.String operations the converter relies on, as functions on
 * `seq<char>`: Trim (two flavours of white space), Split on a set of
 * separator characters (keeping empty pieces) and joining with one
 * separator.
 */
module Text {

  /** System.Char.IsWhiteSpace: the characters System.String.Trim() removes. */
  predicate IsWhiteSpace(c: char) {
    c == ' ' || ('\t' <= c <= '\r') || c == '\U{85}' || c == '\U{A0}' || c == '\U{1680}'
    || ('\U{2000}' <= c <= '\U{200A}') || c == '\U{2028}' || c == '\U{2029}'
    || c == '\U{202F}' || c == '\U{205F}' || c == '\U{3000}'
  }

  /** No character of `s` is one of `separators`. */
  predicate NoneIn(s: string, separators: set<char>) {
    forall k :: 0 <= k < |s| ==> s[k] !in separators
  }

  /** Every character of `s` is white in the sense of `white`. */
  predicate AllWhite(s: string, white: char -> bool) {
    forall k :: 0 <= k < |s| ==> white(s[k])
  }

  /** Drops the leading characters that `white` accepts. */
  function TrimStart(s: string, white: char -> bool): string
    decreases |s|
  {
    if |s| > 0 && white(s[0]) then TrimStart(s[1..], white) else s
  }

  /** Drops the trailing characters that `white` accepts. */
  function TrimEnd(s: string, white: char -> bool): string
    decreases |s|
  {
    if |s| > 0 && white(s[|s| - 1]) then TrimEnd(s[..|s| - 1], white) else s
  }

  /** What TrimStart removes: a white prefix, leaving a suffix that is empty or starts with a non-white character. */
  lemma {:induction false} TrimStartFacts(s: string, white: char -> bool)
    ensures var r := TrimStart(s, white);
            |r| <= |s| && r == s[|s| - |r|..] && AllWhite(s[..|s| - |r|], white) && (r == [] || !white(r[0]))
    decreases |s|
  {
    if |s| > 0 && white(s[0]) {
      TrimStartFacts(s[1..], white);
      var r := TrimStart(s, white);
      assert s[..|s| - |r|] == [s[0]] + s[1..][..|s| - 1 - |r|];
    }
  }

  /** What TrimEnd removes: a white suffix, leaving a prefix that is empty or ends with a non-white character. */
  lemma {:induction false} TrimEndFacts(s: string, white: char -> bool)
    ensures var r := TrimEnd(s, white);
            |r| <= |s| && r == s[..|r|] && AllWhite(s[|r|..], white) && (r == [] || !white(r[|r| - 1]))
    decreases |s|
  {
    if |s| > 0 && white(s[|s| - 1]) {
      var t := s[..|s| - 1];
      TrimEndFacts(t, white);
      var r := TrimEnd(s, white);
      assert s[|r|..] == t[|r|..] + [s[|s| - 1]];
      assert t[..|r|] == s[..|r|];
    }
  }

  /** Drops the white characters at both ends. */
  function TrimWith(s: string, white: char -> bool): string {
    TrimEnd(TrimStart(s, white), white)
  }

  /**
   * The trimmed string starts and ends with a non-white character, is
   * empty exactly when `s` is all white, and is the slice of `s` between a
   * white prefix and a white suffix.
   */
  lemma TrimWithFacts(s: string, white: char -> bool)
    ensures var r := TrimWith(s, white);
            r == [] || (!white(r[0]) && !white(r[|r| - 1]))
    ensures TrimWith(s, white) == [] <==> AllWhite(s, white)
    ensures exists i, j :: 0 <= i <= j <= |s| && TrimWith(s, white) == s[i..j]
                           && AllWhite(s[..i], white) && AllWhite(s[j..], white)
  {
    var t := TrimStart(s, white);
    var r := TrimEnd(t, white);
    TrimStartFacts(s, white);
    TrimEndFacts(t, white);
    var i := |s| - |t|;
    assert r == s[i..i + |r|];
    assert r != [] ==> r[0] == t[0];
    assert s[i + |r|..] == t[|r|..];
    if r == [] {
      assert t[|r|..] == t;
      assert |t| == 0;
      assert s[..i] == s;
    } else {
      assert !white(s[i]);
    }
  }

  /** System.String.Trim(). */
  function Trim(s: string): string {
    TrimWith(s, IsWhiteSpace)
  }

  /** A string that starts and ends with a non-white character is its own trim. */
  lemma TrimWithUnchanged(s: string, white: char -> bool)
    requires s == [] || (!white(s[0]) && !white(s[|s| - 1]))
    ensures TrimWith(s, white) == s
  {
  }

  /** How many characters of `s` are separators. */
  function Occurrences(s: string, separators: set<char>): nat
    decreases |s|
  {
    if |s| == 0 then 0
    else (if s[0] in separators then 1 else 0) + Occurrences(s[1..], separators)
  }

  /**
   * System.String.Split(char[]) with no options: cuts `s` at every separator
   * and keeps the empty pieces, so there is one piece more than there are
   * separators and no piece holds a separator.
   */
  function Split(s: string, separators: set<char>): (pieces: seq<string>)
    ensures |pieces| == Occurrences(s, separators) + 1
    ensures forall k :: 0 <= k < |pieces| ==> NoneIn(pieces[k], separators)
    decreases |s|
  {
    if |s| == 0 then [""]
    else
      var rest := Split(s[1..], separators);
      if s[0] in separators then [""] + rest
      else [[s[0]] + rest[0]] + rest[1..]
  }

  /** System.String.Join with a one-character separator. */
  function Join(parts: seq<string>, separator: char): (s: string)
    decreases |parts|
  {
    if |parts| == 0 then ""
    else if |parts| == 1 then parts[0]
    else parts[0] + [separator] + Join(parts[1..], separator)
  }

  /** Joining one part more adds one separator and that part at the end. */
  lemma {:induction false} JoinAppend(parts: seq<string>, x: string, separator: char)
    requires |parts| > 0
    ensures Join(parts + [x], separator) == Join(parts, separator) + [separator] + x
    decreases |parts|
  {
    if |parts| > 1 {
      assert (parts + [x])[1..] == parts[1..] + [x];
      JoinAppend(parts[1..], x, separator);
    }
  }

  /** A string without separators splits into itself alone. */
  lemma {:induction false} SplitNoSeparators(p: string, separators: set<char>)
    requires NoneIn(p, separators)
    ensures Split(p, separators) == [p]
    decreases |p|
  {
    if |p| > 0 {
      SplitNoSeparators(p[1..], separators);
      assert [p[0]] + p[1..] == p;
    }
  }

  /** A separator-free piece followed by a separator splits off as the first piece. */
  lemma {:induction false} SplitAfterPiece(p: string, c: char, rest: string, separators: set<char>)
    requires NoneIn(p, separators) && c in separators
    ensures Split(p + [c] + rest, separators) == [p] + Split(rest, separators)
    decreases |p|
  {
    var s := p + [c] + rest;
    if |p| == 0 {
      assert s[0] == c && s[1..] == rest;
    } else {
      assert s[0] == p[0] && s[1..] == p[1..] + [c] + rest;
      SplitAfterPiece(p[1..], c, rest, separators);
      assert [p[0]] + p[1..] == p;
    }
  }

  /** Splitting undoes joining when the parts hold no separator. */
  lemma {:induction false} SplitJoin(parts: seq<string>, separator: char, separators: set<char>)
    requires |parts| > 0 && separator in separators
    requires forall k :: 0 <= k < |parts| ==> NoneIn(parts[k], separators)
    ensures Split(Join(parts, separator), separators) == parts
    decreases |parts|
  {
    if |parts| == 1 {
      SplitNoSeparators(parts[0], separators);
    } else {
      SplitJoin(parts[1..], separator, separators);
      SplitAfterPiece(parts[0], separator, Join(parts[1..], separator), separators);
    }
  }

  /** Joining the pieces of a one-separator split gives back the string. */
  lemma {:induction false} JoinSplit(s: string, separator: char)
    ensures Join(Split(s, {separator}), separator) == s
    decreases |s|
  {
    if |s| > 0 {
      var rest := Split(s[1..], {separator});
      JoinSplit(s[1..], separator);
      if s[0] != separator && |rest| > 1 {
        assert Join(rest, separator) == rest[0] + [separator] + Join(rest[1..], separator);
        assert ([s[0]] + rest[0]) + [separator] + Join(rest[1..], separator)
            == [s[0]] + Join(rest, separator);
      }
      assert [s[0]] + s[1..] == s;
    }
  }
}
