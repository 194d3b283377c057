/** Character classes and string helpers shared by the directive scanners,
    the docstring splitter and the renderers. Strings are `seq<char>`. */
module Text {

  datatype Option<+T> = None | Some(value: T)

  /** Python's `str.isspace`; in a `str` pattern `\s` matches exactly these code points. */
  predicate IsSpace(c: char) {
    var n := c as int;
    (9 <= n <= 13) || (28 <= n <= 32) || n == 0x85 || n == 0xA0 || n == 0x1680
    || (0x2000 <= n <= 0x200A) || n == 0x2028 || n == 0x2029 || n == 0x202F
    || n == 0x205F || n == 0x3000
  }

  /** The character class `[ \t]`. */
  predicate IsBlank(c: char) {
    c == ' ' || c == '\t'
  }

  /** The character class `\w`, restricted to ASCII. */
  predicate IsWordChar(c: char) {
    ('a' <= c <= 'z') || ('A' <= c <= 'Z') || ('0' <= c <= '9') || c == '_'
  }

  /** A Python identifier-like name: one or more word characters. */
  predicate IsWord(s: string) {
    |s| > 0 && forall k :: 0 <= k < |s| ==> IsWordChar(s[k])
  }

  /** Every name of the list is a word (stated name by name, from the front). */
  predicate AllWords(names: seq<string>) {
    |names| == 0 || (IsWord(names[0]) && AllWords(names[1..]))
  }

  /** The list-wide reading of `AllWords`. */
  lemma {:induction false} AllWordsMembers(names: seq<string>)
    requires AllWords(names)
    ensures forall w :: w in names ==> IsWord(w)
  {
    if |names| > 0 {
      AllWordsMembers(names[1..]);
      assert forall w :: w in names ==> w == names[0] || w in names[1..];
    }
  }

  lemma {:induction false} AllWordsCons(w: string, rest: seq<string>)
    requires IsWord(w) && AllWords(rest)
    ensures AllWords([w] + rest)
  {
    assert ([w] + rest)[1..] == rest;
  }

  predicate AllSpace(s: string) {
    forall k :: 0 <= k < |s| ==> IsSpace(s[k])
  }

  /** The private-name convention: the name's first character is `_`. */
  predicate IsPrivate(name: string) {
    |name| > 0 && name[0] == '_'
  }

  /** Index of the first character at or after `i` that is not whitespace (`\s*`, greedy). */
  function SkipSpaces(s: string, i: nat): (j: nat)
    requires i <= |s|
    ensures i <= j <= |s|
    ensures j < |s| ==> !IsSpace(s[j])
    decreases |s| - i
  {
    if i < |s| && IsSpace(s[i]) then SkipSpaces(s, i + 1) else i
  }
  /** Everything `SkipSpaces` passes over satisfies `IsSpace`. */
  lemma {:induction false} SkipSpacesSpan(s: string, i: nat)
    requires i <= |s|
    ensures forall k :: i <= k < SkipSpaces(s, i) ==> IsSpace(s[k])
    decreases |s| - i
  {
    if i < |s| && IsSpace(s[i]) {
      SkipSpacesSpan(s, i + 1);
    }
  }


  /** Index of the first character at or after `i` that is not a space or tab (`[ \t]*`). */
  function SkipBlanks(s: string, i: nat): (j: nat)
    requires i <= |s|
    ensures i <= j <= |s|
    ensures j < |s| ==> !IsBlank(s[j])
    decreases |s| - i
  {
    if i < |s| && IsBlank(s[i]) then SkipBlanks(s, i + 1) else i
  }
  /** Everything `SkipBlanks` passes over satisfies `IsBlank`. */
  lemma {:induction false} SkipBlanksSpan(s: string, i: nat)
    requires i <= |s|
    ensures forall k :: i <= k < SkipBlanks(s, i) ==> IsBlank(s[k])
    decreases |s| - i
  {
    if i < |s| && IsBlank(s[i]) {
      SkipBlanksSpan(s, i + 1);
    }
  }


  /** Index just past the run of word characters starting at `i` (`\w*`, greedy). */
  function SkipWord(s: string, i: nat): (j: nat)
    requires i <= |s|
    ensures i <= j <= |s|
    ensures j < |s| ==> !IsWordChar(s[j])
    decreases |s| - i
  {
    if i < |s| && IsWordChar(s[i]) then SkipWord(s, i + 1) else i
  }
  /** Everything `SkipWord` passes over satisfies `IsWordChar`. */
  lemma {:induction false} SkipWordSpan(s: string, i: nat)
    requires i <= |s|
    ensures forall k :: i <= k < SkipWord(s, i) ==> IsWordChar(s[k])
    decreases |s| - i
  {
    if i < |s| && IsWordChar(s[i]) {
      SkipWordSpan(s, i + 1);
    }
  }


  /** Number of leading whitespace characters of `s`. */
  function LeadingSpaces(s: string): (i: nat)
    ensures i <= |s| && AllSpace(s[..i])
    ensures i < |s| ==> !IsSpace(s[i])
  {
    SkipSpacesSpan(s, 0);
    SkipSpaces(s, 0)
  }

  /** Start of the trailing run of whitespace characters of `s`. */
  function TrailingStart(s: string): (j: nat)
    ensures j <= |s| && AllSpace(s[j..])
    ensures j > 0 ==> !IsSpace(s[j - 1])
  {
    if |s| > 0 && IsSpace(s[|s| - 1]) then
      var j := TrailingStart(s[..|s| - 1]);
      assert s[j..] == s[..|s| - 1][j..] + [s[|s| - 1]];
      j
    else |s|
  }

  /** Python's `str.strip()` with no argument: the text between the leading
      and the trailing whitespace. */
  function Strip(s: string): (r: string)
    ensures r == [] || (!IsSpace(r[0]) && !IsSpace(r[|r| - 1]))
    ensures exists i :: 0 <= i <= |s| - |r| && s[i..i + |r|] == r
                        && AllSpace(s[..i]) && AllSpace(s[i + |r|..])
  {
    var i := LeadingSpaces(s);
    var j := TrailingStart(s[i..]);
    StripPieces(s, i, j);
    s[i..][..j]
  }

  /** The pieces `Strip` cuts `s` into: leading whitespace, a text that starts
      and ends with a non-whitespace character, trailing whitespace. */
  lemma StripPieces(s: string, i: nat, j: nat)
    requires i == LeadingSpaces(s) && j == TrailingStart(s[i..])
    ensures var r := s[i..][..j];
      (r == [] || (!IsSpace(r[0]) && !IsSpace(r[|r| - 1]))) &&
      0 <= i <= |s| - |r| && s[i..i + |r|] == r && AllSpace(s[..i]) && AllSpace(s[i + |r|..])
  {
    var t := s[i..];
    assert t[..j] == s[i..i + j];
    assert t[j..] == s[i + j..];
    if j > 0 {
      assert t[0] == s[i];
      assert t[..j][0] == t[0] && t[..j][j - 1] == t[j - 1];
    }
  }

  /** Concatenation regrouped; stated once so that proofs over long
      concatenations need not find it themselves. */
  lemma AppendAssoc<T>(a: seq<T>, b: seq<T>, c: seq<T>)
    ensures a + b + c == a + (b + c)
  {
  }

  /** Python's `sep.join(parts)`. */
  function Join(sep: string, parts: seq<string>): string
  {
    if |parts| == 0 then ""
    else if |parts| == 1 then parts[0]
    else Join(sep, parts[..|parts| - 1]) + sep + parts[|parts| - 1]
  }

  lemma JoinSnoc(sep: string, parts: seq<string>, x: string)
    ensures Join(sep, parts + [x]) == if parts == [] then x else Join(sep, parts) + sep + x
  {
    assert (parts + [x])[..|parts|] == parts;
  }

  /** Joining a non-empty list whose first part is non-empty gives non-empty text. */
  lemma {:induction false} JoinNonEmpty(sep: string, parts: seq<string>)
    requires |parts| > 0 && parts[0] != ""
    ensures Join(sep, parts) != ""
  {
    if |parts| > 1 {
      JoinNonEmpty(sep, parts[..|parts| - 1]);
    }
  }

  lemma {:induction false} JoinCons(sep: string, x: string, parts: seq<string>)
    requires parts != []
    ensures Join(sep, [x] + parts) == x + sep + Join(sep, parts)
  {
    if |parts| == 1 {
      assert [x] + parts == [x, parts[0]];
    } else {
      var init := parts[..|parts| - 1];
      JoinCons(sep, x, init);
      assert ([x] + parts)[..|parts|] == [x] + init;
      assert ([x] + parts)[|parts|] == parts[|parts| - 1];
    }
  }

  /** The whitespace skip stops exactly at the first non-whitespace character. */
  lemma {:induction false} SkipSpacesTo(s: string, i: nat, j: nat)
    requires i <= j <= |s|
    requires forall k :: i <= k < j ==> IsSpace(s[k])
    requires j < |s| ==> !IsSpace(s[j])
    ensures SkipSpaces(s, i) == j
    decreases j - i
  {
    if i < j {
      SkipSpacesTo(s, i + 1, j);
    }
  }

  lemma {:induction false} SkipBlanksTo(s: string, i: nat, j: nat)
    requires i <= j <= |s|
    requires forall k :: i <= k < j ==> IsBlank(s[k])
    requires j < |s| ==> !IsBlank(s[j])
    ensures SkipBlanks(s, i) == j
    decreases j - i
  {
    if i < j {
      SkipBlanksTo(s, i + 1, j);
    }
  }

  lemma {:induction false} SkipWordTo(s: string, i: nat, j: nat)
    requires i <= j <= |s|
    requires forall k :: i <= k < j ==> IsWordChar(s[k])
    requires j < |s| ==> !IsWordChar(s[j])
    ensures SkipWord(s, i) == j
    decreases j - i
  {
    if i < j {
      SkipWordTo(s, i + 1, j);
    }
  }

  /** A non-empty run of word characters is a word. */
  lemma SkipWordIsWord(s: string, i: nat)
    requires i <= |s| && SkipWord(s, i) > i
    ensures IsWord(s[i..SkipWord(s, i)])
  {
    var j := SkipWord(s, i);
    SkipWordSpan(s, i);
    forall k | 0 <= k < j - i ensures IsWordChar(s[i..j][k]) {
      assert s[i..j][k] == s[i + k];
    }
  }

  /** Word characters are never whitespace. */
  lemma WordCharIsNotSpace(c: char)
    requires IsWordChar(c)
    ensures !IsSpace(c) && !IsBlank(c)
  {
  }
}
