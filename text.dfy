/**
 * String primitives the bots rely on from the host language: the option type,
 * the `\w` character class of regular expressions, `str.lower()`,
 * `str.isspace()`, `" ".join(...)` and `str.strip()`.
 */
module Text {

  datatype Option<+T> = None | Some(value: T)

  /** A character of the `\w` class: a letter, a digit or the underscore (ASCII only). */
  predicate IsWordChar(c: char)
  {
    ('a' <= c <= 'z') || ('A' <= c <= 'Z') || ('0' <= c <= '9') || c == '_'
  }

  /** The characters `str.isspace()` accepts. */
  predicate IsSpace(c: char)
  {
    c == ' ' || ('\t' <= c <= '\r') || ('\U{1c}' <= c <= '\U{1f}')
    || c == '\U{85}' || c == '\U{a0}' || c == '\U{1680}' || ('\U{2000}' <= c <= '\U{200a}')
    || c == '\U{2028}' || c == '\U{2029}' || c == '\U{202f}' || c == '\U{205f}' || c == '\U{3000}'
  }

  function LowerChar(c: char): (d: char)
    ensures 'A' <= c <= 'Z' ==> 'a' <= d <= 'z' && d as int - c as int == 32
    ensures !('A' <= c <= 'Z') ==> d == c
  {
    if 'A' <= c <= 'Z' then (c as int + 32) as char else c
  }

  /** `str.lower()` on ASCII letters; every other character is kept. */
  function Lower(s: string): (r: string)
    ensures |r| == |s|
    ensures forall i :: 0 <= i < |s| ==> r[i] == LowerChar(s[i])
  {
    if s == [] then [] else [LowerChar(s[0])] + Lower(s[1..])
  }

  /** `" ".join(parts)`. */
  function JoinSpace(parts: seq<string>): string
  {
    if parts == [] then ""
    else if |parts| == 1 then parts[0]
    else parts[0] + " " + JoinSpace(parts[1..])
  }

  /** `JoinSpace` extended by one part at the end. */
  lemma {:induction false} JoinSpaceSnoc(parts: seq<string>, p: string)
    requires parts != []
    ensures JoinSpace(parts + [p]) == JoinSpace(parts) + " " + p
  {
    if |parts| == 1 {
      assert parts + [p] == [parts[0], p];
    } else {
      assert (parts + [p])[1..] == parts[1..] + [p];
      JoinSpaceSnoc(parts[1..], p);
    }
  }

  /** Drop leading whitespace: the result is a suffix of `s`, everything dropped is whitespace. */
  function StripLeft(s: string): (r: string)
    ensures |r| <= |s| && r == s[|s| - |r|..]
    ensures forall i :: 0 <= i < |s| - |r| ==> IsSpace(s[i])
    ensures r == [] || !IsSpace(r[0])
  {
    if s != [] && IsSpace(s[0]) then StripLeft(s[1..]) else s
  }

  /** Drop trailing whitespace: the result is a prefix of `s`, everything dropped is whitespace. */
  function StripRight(s: string): (r: string)
    ensures |r| <= |s| && r == s[..|r|]
    ensures forall i :: |r| <= i < |s| ==> IsSpace(s[i])
    ensures r == [] || !IsSpace(r[|r| - 1])
  {
    if s != [] && IsSpace(s[|s| - 1]) then StripRight(s[..|s| - 1]) else s
  }

  /** `str.strip()`: the longest slice of `s` neither starting nor ending with whitespace, with only whitespace outside it. */
  function Strip(s: string): (r: string)
    ensures exists i, j ::
              && 0 <= i <= j <= |s| && r == s[i..j]
              && (forall k :: 0 <= k < i ==> IsSpace(s[k]))
              && (forall k :: j <= k < |s| ==> IsSpace(s[k]))
    ensures r == [] || (!IsSpace(r[0]) && !IsSpace(r[|r| - 1]))
  {
    var t := StripLeft(s);
    var r := StripRight(t);
    assert r == s[|s| - |t|..|s| - |t| + |r|];
    r
  }

  /** `JoinSpace` starts with the first part's first character. */
  lemma JoinSpaceFirst(parts: seq<string>)
    requires parts != [] && parts[0] != []
    ensures |JoinSpace(parts)| > 0 && JoinSpace(parts)[0] == parts[0][0]
  {
  }

  /** `JoinSpace` ends with the last part's last character. */
  lemma {:induction false} JoinSpaceLast(parts: seq<string>)
    requires parts != [] && parts[|parts| - 1] != []
    ensures |JoinSpace(parts)| > 0
    ensures JoinSpace(parts)[|JoinSpace(parts)| - 1] == parts[|parts| - 1][|parts[|parts| - 1]| - 1]
  {
    if |parts| > 1 {
      JoinSpaceLast(parts[1..]);
    }
  }

  /** A string that starts with a non-space character loses only its trailing whitespace to `Strip`. */
  lemma StripFromNonSpace(s: string)
    requires s != [] && !IsSpace(s[0])
    ensures Strip(s) == StripRight(s)
  {
  }

  /** One space after a string that neither starts nor ends with whitespace is removed by `Strip`, and nothing else. */
  lemma StripTrailingSpace(s: string)
    requires s != [] && !IsSpace(s[0]) && !IsSpace(s[|s| - 1])
    ensures Strip(s + " ") == s
  {
    StripFromNonSpace(s + " ");
    var t := s + " ";
    assert t[..|t| - 1] == s;
  }
}
