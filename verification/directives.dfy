/** The directives a docstring may carry (`:exclude:`, `:exclude_children:`,
    `:exclude_methods …:`, `:include_methods …:`), read by fixed-pattern
    scanners over the docstring text. A missing docstring is passed as "". */
module Directives {
  import opened Text

  // ---------------------------------------------------------------------------
  // :exclude: and :exclude_children:  —  the pattern `:[ \t]*LEVEL[ \t]*:[ \t]*\n`
  // ---------------------------------------------------------------------------

  /** The directive line for `level` as the pattern describes it, with the
      space/tab runs `b1`, `b2`, `b3` and the mandatory line break. */
  function ExclusionLine(b1: string, level: string, b2: string, b3: string): string {
    [':'] + (b1 + (level + (b2 + ([':'] + (b3 + ['\n'])))))
  }

  predicate AllBlank(s: string) {
    forall k :: 0 <= k < |s| ==> IsBlank(s[k])
  }

  /** `t` starts with an instance of the directive line for `level`. */
  ghost predicate ExclusionShape(t: string, level: string) {
    exists b1, b2, b3 :: AllBlank(b1) && AllBlank(b2) && AllBlank(b3)
                         && ExclusionLine(b1, level, b2, b3) <= t
  }

  /** The scanner for one candidate position: `:` at `i`, then greedy runs of
      spaces/tabs around `level` and the closing `:`, then a line break. */
  predicate ExclusionLineAt(s: string, i: nat, level: string)
    requires i <= |s|
  {
    if i < |s| && s[i] == ':' then
      var a := SkipBlanks(s, i + 1);
      if a + |level| <= |s| && s[a..a + |level|] == level then
        var b := SkipBlanks(s, a + |level|);
        if b < |s| && s[b] == ':' then
          var c := SkipBlanks(s, b + 1);
          c < |s| && s[c] == '\n'
        else false
      else false
    else false
  }

  /** Greedy skipping finds the directive line exactly when one starts at `i`:
      `level` begins with a word character, so no space/tab run can be split
      differently from the greedy one. */
  lemma ExclusionLineAtIff(s: string, i: nat, level: string)
    requires i <= |s| && IsWord(level)
    ensures ExclusionLineAt(s, i, level) <==> ExclusionShape(s[i..], level)
  {
    if ExclusionLineAt(s, i, level) {
      LineHasShape(s, i, level);
    }
    if ExclusionShape(s[i..], level) {
      var b1, b2, b3 :| AllBlank(b1) && AllBlank(b2) && AllBlank(b3)
                        && ExclusionLine(b1, level, b2, b3) <= s[i..];
      ShapeIsFound(s, i, level, b1, b2, b3);
    }
  }

  lemma LineHasShape(s: string, i: nat, level: string)
    requires i <= |s| && ExclusionLineAt(s, i, level)
    ensures ExclusionShape(s[i..], level)
  {
    var n := |level|;
    var a := SkipBlanks(s, i + 1);
    var b := SkipBlanks(s, a + n);
    var c := SkipBlanks(s, b + 1);
    AssembleLine(s, i, a, b, c, level);
    BlankRuns(s, i, a, b, c, n);
    ShapeFromPieces(s[i..], level, s[i + 1..a], s[a + n..b], s[b + 1..c]);
  }

  /** The three runs the scanner skipped are spaces and tabs. */
  lemma BlankRuns(s: string, i: nat, a: nat, b: nat, c: nat, n: nat)
    requires i < a <= b < c <= |s|
    requires a == SkipBlanks(s, i + 1) && a + n <= b == SkipBlanks(s, a + n) && c == SkipBlanks(s, b + 1)
    ensures AllBlank(s[i + 1..a]) && AllBlank(s[a + n..b]) && AllBlank(s[b + 1..c])
  {
    BlankRun(s, i + 1);
    BlankRun(s, a + n);
    BlankRun(s, b + 1);
  }

  lemma ShapeFromPieces(t: string, level: string, b1: string, b2: string, b3: string)
    requires AllBlank(b1) && AllBlank(b2) && AllBlank(b3)
    requires ExclusionLine(b1, level, b2, b3) <= t
    ensures ExclusionShape(t, level)
  {
  }

  /** What `SkipBlanks` passes over is a run of spaces and tabs. */
  lemma BlankRun(s: string, i: nat)
    requires i <= |s|
    ensures AllBlank(s[i..SkipBlanks(s, i)])
  {
    var j := SkipBlanks(s, i);
    SkipBlanksSpan(s, i);
    forall k | 0 <= k < j - i ensures IsBlank(s[i..j][k]) {
      assert s[i..j][k] == s[i + k];
    }
  }

  /** The pieces the scanner found, put back together, are the text it scanned. */
  lemma AssembleLine(s: string, i: nat, a: nat, b: nat, c: nat, level: string)
    requires i < a && a + |level| <= b < c < |s|
    requires s[i] == ':' && s[a..a + |level|] == level && s[b] == ':' && s[c] == '\n'
    ensures ExclusionLine(s[i + 1..a], level, s[a + |level|..b], s[b + 1..c]) == s[i..c + 1]
  {
    var t3 := level + (s[a + |level|..b] + ([':'] + (s[b + 1..c] + ['\n'])));
    AssembleFromLevel(s, a, b, c, level);
    SliceUnit(s, i);
    var t2 := s[i + 1..a] + t3;
    SlicePrepend(s, i + 1, a, c + 1, s[i + 1..a], t3);
    SlicePrepend(s, i, i + 1, c + 1, [':'], t2);
  }

  /** The part from the level on. */
  lemma AssembleFromLevel(s: string, a: nat, b: nat, c: nat, level: string)
    requires a + |level| <= b < c < |s| && s[a..a + |level|] == level && s[b] == ':' && s[c] == '\n'
    ensures s[a..c + 1] == level + (s[a + |level|..b] + ([':'] + (s[b + 1..c] + ['\n'])))
  {
    var n := |level|;
    AssembleTail(s, a + n, b, c);
    SlicePrepend(s, a, a + n, c + 1, level, s[a + n..b] + ([':'] + (s[b + 1..c] + ['\n'])));
  }

  /** The part after the level: blanks, `:`, blanks, line break. */
  lemma AssembleTail(s: string, d: nat, b: nat, c: nat)
    requires d <= b < c < |s| && s[b] == ':' && s[c] == '\n'
    ensures s[d..c + 1] == s[d..b] + ([':'] + (s[b + 1..c] + ['\n']))
  {
    SliceUnit(s, c);
    SliceUnit(s, b);
    var t6 := s[b + 1..c] + ['\n'];
    SlicePrepend(s, b + 1, c, c + 1, s[b + 1..c], ['\n']);
    var t5 := [':'] + t6;
    SlicePrepend(s, b, b + 1, c + 1, [':'], t6);
    SlicePrepend(s, d, b, c + 1, s[d..b], t5);
  }

  /** A text that starts the suffix at `i` is the slice of that length at `i`. */
  lemma PrefixAt(s: string, i: nat, t: string)
    requires i <= |s| && t <= s[i..]
    ensures i + |t| <= |s| && s[i..i + |t|] == t
  {
    assert s[i..][..|t|] == s[i..i + |t|];
  }

  lemma SliceUnit(s: string, x: nat)
    requires x < |s|
    ensures s[x..x + 1] == [s[x]]
  {
  }

  /** Two adjacent slices with known contents make up the slice that spans them. */
  lemma SlicePrepend(s: string, x: nat, y: nat, z: nat, h: string, t: string)
    requires x <= y <= z <= |s| && s[x..y] == h && s[y..z] == t
    ensures s[x..z] == h + t
  {
    assert s[x..z] == s[x..y] + s[y..z];
  }

  lemma ShapeIsFound(s: string, i: nat, level: string, b1: string, b2: string, b3: string)
    requires i <= |s| && IsWord(level)
    requires AllBlank(b1) && AllBlank(b2) && AllBlank(b3)
    requires ExclusionLine(b1, level, b2, b3) <= s[i..]
    ensures ExclusionLineAt(s, i, level)
  {
    var a := i + 1 + |b1|;
    var b := a + |level| + |b2|;
    var c := b + 1 + |b3|;
    LinePieces(s, i, level, b1, b2, b3);
    MiddleRuns(s, a, b, c, level, b2, b3);
    BlankSliceRun(s, i + 1, a, b1);
    LineAt(s, i, level, a, b, c);
  }

  /** The blanks around the second `:` end where the scanner's skips stop. */
  lemma MiddleRuns(s: string, a: nat, b: nat, c: nat, level: string, b2: string, b3: string)
    requires IsWord(level) && AllBlank(b2) && AllBlank(b3) && MiddleAt(s, a, level, b2, b3)
    requires b == a + |level| + |b2| && c == b + 1 + |b3|
    ensures a < |s| && !IsBlank(s[a])
    ensures SkipBlanks(s, a + |level|) == b && SkipBlanks(s, b + 1) == c
  {
    TailRun(s, b, c, b3);
    LevelRun(s, a, b, level, b2);
  }

  /** The blanks between the level and the second `:`. */
  lemma LevelRun(s: string, a: nat, b: nat, level: string, b2: string)
    requires IsWord(level) && AllBlank(b2) && b == a + |level| + |b2| && b < |s|
    requires s[a..a + |level|] == level && s[a + |level|..b] == b2 && s[b] == ':'
    ensures !IsBlank(s[a]) && SkipBlanks(s, a + |level|) == b
  {
    LevelStart(s, a, level);
    BlankSliceRun(s, a + |level|, b, b2);
  }

  /** The blanks between the second `:` and the line break. */
  lemma TailRun(s: string, b: nat, c: nat, b3: string)
    requires c == b + 1 + |b3| && c < |s| && s[b + 1..c] == b3 && AllBlank(b3) && s[c] == '\n'
    ensures SkipBlanks(s, b + 1) == c
  {
    BlankSliceRun(s, b + 1, c, b3);
  }

  /** The scanner accepts a position once each of its steps is known. */
  lemma LineAt(s: string, i: nat, level: string, a: nat, b: nat, c: nat)
    requires i < |s| && s[i] == ':' && a == SkipBlanks(s, i + 1)
    requires a + |level| <= |s| && s[a..a + |level|] == level && b == SkipBlanks(s, a + |level|)
    requires b < |s| && s[b] == ':' && c == SkipBlanks(s, b + 1) && c < |s| && s[c] == '\n'
    ensures ExclusionLineAt(s, i, level)
  {
  }

  /** The level starts with a word character, so it ends the blanks before it. */
  lemma LevelStart(s: string, a: nat, level: string)
    requires IsWord(level) && a + |level| <= |s| && s[a..a + |level|] == level
    ensures !IsBlank(s[a])
  {
    assert s[a..a + |level|][0] == s[a];
    WordCharIsNotSpace(level[0]);
  }

  /** Where each piece of a directive line sits in the text that starts with it. */
  lemma LinePieces(s: string, i: nat, level: string, b1: string, b2: string, b3: string)
    requires i <= |s| && ExclusionLine(b1, level, b2, b3) <= s[i..]
    ensures i + |b1| + |level| + |b2| + |b3| + 2 < |s|
    ensures s[i] == ':' && s[i + 1..i + 1 + |b1|] == b1
    ensures MiddleAt(s, i + 1 + |b1|, level, b2, b3)
  {
    var r2 := level + (b2 + ([':'] + (b3 + ['\n'])));
    var line := [':'] + (b1 + r2);
    PrefixAt(s, i, line);
    SliceSplitAt(s, i, [':'], b1 + r2);
    SliceSplitAt(s, i + 1, b1, r2);
    MiddlePieces(s, i + 1 + |b1|, level, b2, b3);
  }

  /** The directive line from the level on, at `a`. */
  predicate MiddleAt(s: string, a: nat, level: string, b2: string, b3: string) {
    var b := a + |level| + |b2|;
    b + 1 + |b3| < |s| &&
    s[a..a + |level|] == level && s[a + |level|..b] == b2 &&
    s[b] == ':' && s[b + 1..b + 1 + |b3|] == b3 && s[b + 1 + |b3|] == '\n'
  }

  /** The same, from the level on. */
  lemma MiddlePieces(s: string, a: nat, level: string, b2: string, b3: string)
    requires a + |level| + |b2| + |b3| + 2 <= |s|
    requires s[a..a + |level| + |b2| + |b3| + 2] == level + (b2 + ([':'] + (b3 + ['\n'])))
    ensures MiddleAt(s, a, level, b2, b3)
  {
    var r4 := [':'] + (b3 + ['\n']);
    SliceSplitAt(s, a, level, b2 + r4);
    SliceSplitAt(s, a + |level|, b2, r4);
    TailPieces(s, a + |level| + |b2|, b3);
  }

  /** The same, from the closing `:` on. */
  lemma TailPieces(s: string, b: nat, b3: string)
    requires b + |b3| + 2 <= |s| && s[b..b + |b3| + 2] == [':'] + (b3 + ['\n'])
    ensures s[b] == ':' && s[b + 1..b + 1 + |b3|] == b3 && s[b + 1 + |b3|] == '\n'
  {
    SliceSplitAt(s, b, [':'], b3 + ['\n']);
    SliceSplitAt(s, b + 1, b3, ['\n']);
  }

  /** A slice that holds `x + y` holds `x`, then `y`. */
  lemma SliceSplitAt(s: string, p: nat, x: string, y: string)
    requires p + |x| + |y| <= |s| && s[p..p + |x| + |y|] == x + y
    ensures s[p..p + |x|] == x && s[p + |x|..p + |x| + |y|] == y
    ensures |x| == 1 ==> s[p] == x[0]
    ensures |y| == 1 ==> s[p + |x|] == y[0]
  {
    assert s[p..p + |x|] == (x + y)[..|x|];
    assert s[p + |x|..p + |x| + |y|] == (x + y)[|x|..];
  }

  /** A slice of blanks followed by a non-blank is exactly what `SkipBlanks` passes over. */
  lemma BlankSliceRun(s: string, x: nat, y: nat, run: string)
    requires x <= y <= |s| && s[x..y] == run && AllBlank(run)
    requires y < |s| ==> !IsBlank(s[y])
    ensures SkipBlanks(s, x) == y
  {
    forall k | x <= k < y ensures IsBlank(s[k]) {
      assert s[k] == run[k - x];
    }
    SkipBlanksTo(s, x, y);
  }


  function ScanExclusion(doc: string, i: nat, level: string): (r: bool)
    requires i <= |doc|
    ensures r <==> exists k :: i <= k < |doc| && ExclusionLineAt(doc, k, level)
    decreases |doc| - i
  {
    if i == |doc| then false
    else ExclusionLineAt(doc, i, level) || ScanExclusion(doc, i + 1, level)
  }

  /** `_check_exclusion(doc, level)`: searches the whole docstring; an empty
      (or missing) docstring is never excluded. */
  function CheckExclusion(doc: string, level: string): (r: bool)
    ensures doc == [] ==> !r
  {
    ScanExclusion(doc, 0, level)
  }

  /** The search is true exactly when some position starts a directive line for `level`. */
  lemma CheckExclusionMeaning(doc: string, level: string)
    requires IsWord(level)
    ensures CheckExclusion(doc, level) <==> exists k :: 0 <= k < |doc| && ExclusionShape(doc[k..], level)
  {
    if CheckExclusion(doc, level) {
      var k :| 0 <= k < |doc| && ExclusionLineAt(doc, k, level);
      ExclusionLineAtIff(doc, k, level);
    }
    if exists k :: 0 <= k < |doc| && ExclusionShape(doc[k..], level) {
      var k :| 0 <= k < |doc| && ExclusionShape(doc[k..], level);
      ExclusionLineAtIff(doc, k, level);
    }
  }

  /** The line break is part of the pattern: a docstring without one (for
      instance a directive on its very last line, with no newline after it)
      is never excluded. */
  lemma CheckExclusionNeedsLineBreak(doc: string, level: string)
    requires '\n' !in doc
    ensures !CheckExclusion(doc, level)
  {
  }

  /** A directive line anywhere in the docstring is found. */
  lemma CheckExclusionFindsLine(pre: string, level: string, post: string)
    requires IsWord(level)
    ensures CheckExclusion(pre + ExclusionLine([], level, [], []) + post, level)
  {
    var doc := pre + ExclusionLine([], level, [], []) + post;
    var t := doc[|pre|..];
    assert ExclusionLine([], level, [], []) <= t;
    assert AllBlank([]);
    assert ExclusionShape(t, level);
    CheckExclusionMeaning(doc, level);
  }

  // ---------------------------------------------------------------------------
  // :exclude_methods …: and :include_methods …:
  //   `:\s*KEYWORD\s*((?:\s*\w+\s*)(?:,\s*\w+\s*)*)?:`  (the list is mandatory
  //   for include_methods)
  // ---------------------------------------------------------------------------

  /** `\w+\s*(,\s*\w+\s*)*` at `i`, closed by a `:`. Every run is maximal, since
      what may follow a word is only whitespace, `,` or `:`; so the greedy reading
      is the only one. Yields the words (what `strip` leaves of each
      comma-separated piece) and the index of the closing `:`. */
  function ParseNameList(s: string, i: nat): (r: Option<(seq<string>, nat)>)
    requires i <= |s|
    ensures r.Some? ==> i < r.value.1 < |s| && s[r.value.1] == ':'
    decreases |s| - i
  {
    var j := SkipWord(s, i);
    if j == i then None
    else
      var k := SkipSpaces(s, j);
      if k < |s| && s[k] == ',' then
        var m := SkipSpaces(s, k + 1);
        var rest := ParseNameList(s, m);
        if rest.None? then None
        else Some(([s[i..j]] + rest.value.0, rest.value.1))
      else if k < |s| && s[k] == ':' then Some(([s[i..j]], k))
      else None
  }

  /** The parsed list holds at least one name, and every name is a word. */
  lemma {:induction false} ParseNameListWords(s: string, i: nat)
    requires i <= |s| && ParseNameList(s, i).Some?
    ensures |ParseNameList(s, i).value.0| > 0 && AllWords(ParseNameList(s, i).value.0)
    decreases |s| - i
  {
    var j := SkipWord(s, i);
    var k := SkipSpaces(s, j);
    SkipWordIsWord(s, i);
    if k < |s| && s[k] == ',' {
      var m := SkipSpaces(s, k + 1);
      ParseNameListWords(s, m);
      AllWordsCons(s[i..j], ParseNameList(s, m).value.0);
    } else {
      AllWordsCons(s[i..j], []);
    }
  }

  /** `", ".join(names)`, built from the front as the parser reads it. */
  function NameListText(names: seq<string>): (t: string)
    ensures |names| == 1 ==> t == names[0]
  {
    if |names| == 0 then ""
    else if |names| == 1 then names[0]
    else names[0] + ", " + NameListText(names[1..])
  }

  /** The list as the parser reads it is Python's `", ".join(names)`. */
  lemma {:induction false} NameListTextIsJoin(names: seq<string>)
    ensures NameListText(names) == Join(", ", names)
  {
    if |names| > 1 {
      NameListTextIsJoin(names[1..]);
      JoinCons(", ", names[0], names[1..]);
      assert names == [names[0]] + names[1..];
    }
  }

  /** A name list written as `n1, n2, …` followed by `:` parses back to the same names. */
  lemma {:induction false} ParseNameListRoundTrip(s: string, i: nat, names: seq<string>, t: string)
    requires |names| > 0 && AllWords(names) && t == NameListText(names)
    requires i + |t| < |s| && s[i..i + |t|] == t && s[i + |t|] == ':'
    ensures ParseNameList(s, i) == Some((names, i + |t|))
    decreases |names|
  {
    if |names| == 1 {
      ParseOneName(s, i, names, t);
    } else {
      var w := names[0];
      var rest := names[1..];
      var jr := NameListText(rest);
      assert t == w + ", " + jr;
      assert IsWord(w) && IsWord(rest[0]);
      assert AllWords(rest);
      ConsPieces(s, i, w, jr);
      NameListHead(rest, jr);
      ParseNameListRoundTrip(s, i + |w| + 2, rest, jr);
      ParseCons(s, i, w, jr, rest, i + |w| + 2 + |jr|);
      assert [w] + rest == names;
    }
  }

  /** The first character of a written list is the first character of its first name. */
  lemma NameListHead(names: seq<string>, t: string)
    requires |names| > 0 && names[0] != [] && t == NameListText(names)
    ensures |t| > 0 && t[0] == names[0][0]
  {
  }

  lemma ParseOneName(s: string, i: nat, names: seq<string>, jn: string)
    requires |names| == 1 && IsWord(names[0]) && jn == NameListText(names)
    requires i + |jn| < |s| && s[i..i + |jn|] == jn && s[i + |jn|] == ':'
    ensures ParseNameList(s, i) == Some((names, i + |jn|))
  {
    var w := names[0];
    assert jn == w;
    SkipWordTo(s, i, i + |w|);
    SkipSpacesTo(s, i + |w|, i + |w|);
    ParseLastName(s, i, i + |w|);
    assert [s[i..i + |w|]] == names;
  }

  /** Where the scanners stop on `w, jr…`: after the word, on the comma, and
      on the first character of the next name. */
  lemma ConsSkips(s: string, i: nat, w: string, jr: string)
    requires IsWord(w) && |jr| > 0 && IsWordChar(jr[0])
    requires i + |w| + 2 + |jr| <= |s|
    requires s[i..i + |w|] == w
    requires s[i + |w|] == ',' && s[i + |w| + 1] == ' '
    requires s[i + |w| + 2..i + |w| + 2 + |jr|] == jr
    ensures SkipWord(s, i) == i + |w| && SkipSpaces(s, i + |w|) == i + |w|
    ensures SkipSpaces(s, i + |w| + 1) == i + |w| + 2
  {
    var j := i + |w|;
    WordEnds(s, i, w, ',');
    SpaceBeforeName(s, j + 1, jr[0]);
  }

  /** A word in the text, followed by a character that is not a word character. */
  lemma WordEnds(s: string, i: nat, w: string, c: char)
    requires IsWord(w) && i + |w| < |s| && s[i..i + |w|] == w && s[i + |w|] == c && !IsWordChar(c) && !IsSpace(c)
    ensures SkipWord(s, i) == i + |w| && SkipSpaces(s, i + |w|) == i + |w|
  {
    SkipWordTo(s, i, i + |w|);
    SkipSpacesTo(s, i + |w|, i + |w|);
  }

  /** One space, then the first character of a name. */
  lemma SpaceBeforeName(s: string, x: nat, c: char)
    requires x + 1 < |s| && s[x] == ' ' && s[x + 1] == c && IsWordChar(c)
    ensures SkipSpaces(s, x) == x + 1
  {
    WordCharIsNotSpace(c);
    SkipSpacesTo(s, x, x + 1);
  }

  /** One more name in front: `w, ` followed by a list that parses. */
  lemma ParseCons(s: string, i: nat, w: string, jr: string, rest: seq<string>, e: nat)
    requires IsWord(w) && |jr| > 0 && IsWordChar(jr[0])
    requires i + |w| + 2 + |jr| <= |s|
    requires s[i..i + |w|] == w
    requires s[i + |w|] == ',' && s[i + |w| + 1] == ' '
    requires s[i + |w| + 2..i + |w| + 2 + |jr|] == jr
    requires ParseNameList(s, i + |w| + 2) == Some((rest, e))
    ensures ParseNameList(s, i) == Some(([w] + rest, e))
  {
    ConsSkips(s, i, w, jr);
    ParseNextName(s, i, i + |w|, i + |w| + 2, rest, e);
  }

  lemma ParseLastName(s: string, i: nat, j: nat)
    requires i < j < |s| && SkipWord(s, i) == j && SkipSpaces(s, j) == j && s[j] == ':'
    ensures ParseNameList(s, i) == Some(([s[i..j]], j))
  {
  }

  lemma ParseNextName(s: string, i: nat, j: nat, m: nat, rest: seq<string>, e: nat)
    requires i < j < |s| && SkipWord(s, i) == j && SkipSpaces(s, j) == j && s[j] == ','
    requires m <= |s| && SkipSpaces(s, j + 1) == m && ParseNameList(s, m) == Some((rest, e))
    ensures ParseNameList(s, i) == Some(([s[i..j]] + rest, e))
  {
  }

  lemma ConsPieces(s: string, i: nat, w: string, jr: string)
    requires i + |w| + 2 + |jr| <= |s|
    requires s[i..i + |w| + 2 + |jr|] == w + ", " + jr
    ensures s[i..i + |w|] == w
    ensures s[i + |w|] == ',' && s[i + |w| + 1] == ' '
    ensures s[i + |w| + 2..i + |w| + 2 + |jr|] == jr
  {
    var t := s[i..i + |w| + 2 + |jr|];
    assert t[..|w|] == w;
    assert s[i..i + |w|] == t[..|w|];
    assert t[|w|] == ',';
    assert t[|w| + 1] == ' ';
    assert t[|w| + 2..] == jr;
    assert s[i + |w| + 2..i + |w| + 2 + |jr|] == t[|w| + 2..];
  }

  /** What a list directive looks like at one position. */
  datatype ListDirective = Bare | Listed(names: seq<string>)

  /** The scanner for one candidate position of `:\s*KEYWORD\s*(list)?:`. */
  function ListDirectiveAt(s: string, i: nat, keyword: string): (r: Option<ListDirective>)
    requires i <= |s|
  {
    if i < |s| && s[i] == ':' then
      var a := SkipSpaces(s, i + 1);
      if a + |keyword| <= |s| && s[a..a + |keyword|] == keyword then
        var b := SkipSpaces(s, a + |keyword|);
        if b < |s| && s[b] == ':' then Some(Bare)
        else
          var list := ParseNameList(s, b);
          if list.None? then None else Some(Listed(list.value.0))
      else None
    else None
  }

  /** The names a list directive yields are words. */
  lemma ListedNamesAreWords(s: string, i: nat, keyword: string)
    requires i <= |s| && ListDirectiveAt(s, i, keyword).Some? && ListDirectiveAt(s, i, keyword).value.Listed?
    ensures forall w :: w in ListDirectiveAt(s, i, keyword).value.names ==> IsWord(w)
  {
    var a := SkipSpaces(s, i + 1);
    ParseNameListWords(s, SkipSpaces(s, a + |keyword|));
    AllWordsMembers(ListDirectiveAt(s, i, keyword).value.names);
  }

  /** `t` starts with `:\s*KEYWORD\s*:`, the directive with its optional
      list left out. */
  ghost predicate BareShape(t: string, keyword: string) {
    exists w1, w2 :: AllSpace(w1) && AllSpace(w2) && BareLine(w1, keyword, w2) <= t
  }

  /** The bare directive with the whitespace runs `w1` and `w2`. */
  function BareLine(w1: string, keyword: string, w2: string): string {
    [':'] + (w1 + (keyword + (w2 + [':'])))
  }

  /** The scanner reports a directive without a list exactly where the pattern
      matches with its list group left out: the keyword starts with a word
      character and the list would have to, so neither whitespace run can be
      split differently from the greedy one. */
  lemma BareDirectiveAtIff(s: string, i: nat, keyword: string)
    requires i <= |s| && IsWord(keyword)
    ensures ListDirectiveAt(s, i, keyword) == Some(Bare) <==> BareShape(s[i..], keyword)
  {
    if ListDirectiveAt(s, i, keyword) == Some(Bare) {
      BareHasShape(s, i, keyword);
    }
    if BareShape(s[i..], keyword) {
      var w1, w2 :| AllSpace(w1) && AllSpace(w2) && BareLine(w1, keyword, w2) <= s[i..];
      BareShapeIsFound(s, i, keyword, w1, w2);
    }
  }

  lemma BareHasShape(s: string, i: nat, keyword: string)
    requires i <= |s| && ListDirectiveAt(s, i, keyword) == Some(Bare)
    ensures BareShape(s[i..], keyword)
  {
    var a := SkipSpaces(s, i + 1);
    var b := SkipSpaces(s, a + |keyword|);
    SpaceRun(s, i + 1);
    SpaceRun(s, a + |keyword|);
    AssembleBare(s, i, a, b, keyword);
  }

  /** The pieces of a bare directive the scanner found, put back together. */
  lemma AssembleBare(s: string, i: nat, a: nat, b: nat, keyword: string)
    requires i < a && a + |keyword| <= b < |s|
    requires s[i] == ':' && s[a..a + |keyword|] == keyword && s[b] == ':'
    ensures BareLine(s[i + 1..a], keyword, s[a + |keyword|..b]) <= s[i..]
  {
    var n := |keyword|;
    var w1, w2 := s[i + 1..a], s[a + n..b];
    SliceUnit(s, b);
    SlicePrepend(s, a + n, b, b + 1, w2, [':']);
    SlicePrepend(s, a, a + n, b + 1, keyword, w2 + [':']);
    SlicePrepend(s, i + 1, a, b + 1, w1, keyword + (w2 + [':']));
    SliceUnit(s, i);
    SlicePrepend(s, i, i + 1, b + 1, [':'], w1 + (keyword + (w2 + [':'])));
    assert s[i..][..b + 1 - i] == s[i..b + 1];
  }

  lemma BareShapeIsFound(s: string, i: nat, keyword: string, w1: string, w2: string)
    requires i <= |s| && IsWord(keyword) && AllSpace(w1) && AllSpace(w2)
    requires BareLine(w1, keyword, w2) <= s[i..]
    ensures ListDirectiveAt(s, i, keyword) == Some(Bare)
  {
    var a := i + 1 + |w1|;
    var b := a + |keyword| + |w2|;
    BareLinePieces(s, i, keyword, w1, w2);
    assert s[a..a + |keyword|][0] == s[a];
    WordCharIsNotSpace(keyword[0]);
    SpaceSliceRun(s, i + 1, a, w1);
    SpaceSliceRun(s, a + |keyword|, b, w2);
    BareFound(s, i, a, b, keyword);
  }

  /** Where each piece of a bare directive sits in the text that starts with it. */
  lemma BareLinePieces(s: string, i: nat, keyword: string, w1: string, w2: string)
    requires i <= |s| && BareLine(w1, keyword, w2) <= s[i..]
    ensures i + |w1| + |keyword| + |w2| + 1 < |s|
    ensures s[i] == ':' && s[i + 1..i + 1 + |w1|] == w1
    ensures s[i + 1 + |w1|..i + 1 + |w1| + |keyword|] == keyword
    ensures s[i + 1 + |w1| + |keyword|..i + 1 + |w1| + |keyword| + |w2|] == w2
    ensures s[i + 1 + |w1| + |keyword| + |w2|] == ':'
  {
    var a := i + 1 + |w1|;
    var r := keyword + (w2 + [':']);
    var line := [':'] + (w1 + r);
    PrefixAt(s, i, line);
    SliceSplitAt(s, i, [':'], w1 + r);
    SliceSplitAt(s, i + 1, w1, r);
    SliceSplitAt(s, a, keyword, w2 + [':']);
    SliceSplitAt(s, a + |keyword|, w2, [':']);
  }

  /** The scanner reports a bare directive once each of its steps is known. */
  lemma BareFound(s: string, i: nat, a: nat, b: nat, keyword: string)
    requires i < |s| && s[i] == ':' && a == SkipSpaces(s, i + 1)
    requires a + |keyword| <= |s| && s[a..a + |keyword|] == keyword
    requires b == SkipSpaces(s, a + |keyword|) && b < |s| && s[b] == ':'
    ensures ListDirectiveAt(s, i, keyword) == Some(Bare)
  {
  }

  /** What `SkipSpaces` passes over is a run of whitespace. */
  lemma SpaceRun(s: string, i: nat)
    requires i <= |s|
    ensures AllSpace(s[i..SkipSpaces(s, i)])
  {
    var j := SkipSpaces(s, i);
    SkipSpacesSpan(s, i);
    forall k | 0 <= k < j - i ensures IsSpace(s[i..j][k]) {
      assert s[i..j][k] == s[i + k];
    }
  }

  /** A slice of whitespace followed by other text is exactly what `SkipSpaces` passes over. */
  lemma SpaceSliceRun(s: string, x: nat, y: nat, run: string)
    requires x <= y <= |s| && s[x..y] == run && AllSpace(run)
    requires y < |s| ==> !IsSpace(s[y])
    ensures SkipSpaces(s, x) == y
  {
    forall k | x <= k < y ensures IsSpace(s[k]) {
      assert s[k] == run[k - x];
    }
    SkipSpacesTo(s, x, y);
  }

  /** `_get_exclusion`'s three answers: `False`, `True`, or a set of names. */
  datatype ExcludeMethods = NotGiven | All | Names(names: set<string>)

  const EXCLUDE_METHODS := "exclude_methods"
  const INCLUDE_METHODS := "include_methods"

  function ScanExcludeMethods(doc: string, i: nat): ExcludeMethods
    requires i <= |doc|
    decreases |doc| - i
  {
    if i == |doc| then NotGiven
    else match ListDirectiveAt(doc, i, EXCLUDE_METHODS)
      case Some(Bare) => All
      case Some(Listed(names)) => Names(set w | w in names)
      case None => ScanExcludeMethods(doc, i + 1)
  }

  /** The scan finds nothing exactly when no position holds a directive, and
      "every method" only at a bare directive. */
  lemma {:induction false} ScanExcludeMeaning(doc: string, i: nat)
    requires i <= |doc|
    ensures ScanExcludeMethods(doc, i).NotGiven? <==> forall k :: i <= k < |doc| ==> ListDirectiveAt(doc, k, EXCLUDE_METHODS).None?
    ensures ScanExcludeMethods(doc, i).All? ==> exists k :: i <= k < |doc| && ListDirectiveAt(doc, k, EXCLUDE_METHODS) == Some(Bare)
    decreases |doc| - i
  {
    if i < |doc| && ListDirectiveAt(doc, i, EXCLUDE_METHODS).None? {
      ScanExcludeMeaning(doc, i + 1);
    }
  }

  /** `_get_exclusion(doc)`: the leftmost `exclude_methods` directive decides. */
  function GetExclusion(doc: string): (r: ExcludeMethods)
    ensures r.NotGiven? <==> forall k :: 0 <= k < |doc| ==> ListDirectiveAt(doc, k, EXCLUDE_METHODS).None?
    ensures r.All? ==> exists k :: 0 <= k < |doc| && ListDirectiveAt(doc, k, EXCLUDE_METHODS) == Some(Bare)
  {
    ScanExcludeMeaning(doc, 0);
    ScanExcludeMethods(doc, 0)
  }

  function ScanIncludeMethods(doc: string, i: nat): set<string>
    requires i <= |doc|
    decreases |doc| - i
  {
    if i == |doc| then {}
    else match ListDirectiveAt(doc, i, INCLUDE_METHODS)
      case Some(Listed(names)) => set w | w in names
      case _ => ScanIncludeMethods(doc, i + 1)
  }

  /** The scan yields words only. */
  lemma {:induction false} ScanIncludeWords(doc: string, i: nat)
    requires i <= |doc|
    ensures forall w :: w in ScanIncludeMethods(doc, i) ==> IsWord(w)
    decreases |doc| - i
  {
    if i < |doc| {
      var d := ListDirectiveAt(doc, i, INCLUDE_METHODS);
      if d.Some? && d.value.Listed? {
        ListedNamesAreWords(doc, i, INCLUDE_METHODS);
      } else {
        ScanIncludeWords(doc, i + 1);
      }
    }
  }

  /** The scan yields nothing when no position holds a directive with a list;
      bare `:include_methods:` directives are passed over. */
  lemma {:induction false} ScanIncludeNone(doc: string, i: nat)
    requires i <= |doc|
    ensures (forall k :: i <= k < |doc| ==> !InclusionAt(doc, k)) ==> ScanIncludeMethods(doc, i) == {}
    decreases |doc| - i
  {
    if i < |doc| && forall k :: i <= k < |doc| ==> !InclusionAt(doc, k) {
      ScanIncludeSkip(doc, i);
      ScanIncludeNone(doc, i + 1);
    }
  }

  /** `_get_inclusion(doc)`: the names of the leftmost `include_methods`
      directive that carries a list, or the empty set. */
  function GetInclusion(doc: string): (r: set<string>)
    ensures forall w :: w in r ==> IsWord(w)
    ensures (forall k :: 0 <= k < |doc| ==> ListDirectiveAt(doc, k, INCLUDE_METHODS).None?) ==> r == {}
    ensures (forall k :: 0 <= k < |doc| ==> !InclusionAt(doc, k)) ==> r == {}
  {
    ScanIncludeWords(doc, 0);
    ScanIncludeNone(doc, 0);
    ScanIncludeMethods(doc, 0)
  }

  /** What the directive found at a position makes `_get_exclusion` return. */
  function ExclusionAnswer(d: ListDirective): (r: ExcludeMethods)
    ensures r.All? <==> d.Bare?
    ensures d.Listed? ==> r == Names(set w | w in d.names)
  {
    match d
    case Bare => All
    case Listed(names) => Names(set w | w in names)
  }

  /** The scan answers with the first directive it meets. */
  lemma {:induction false} ScanExcludeLeftmost(doc: string, i: nat, j: nat)
    requires i <= j < |doc| && ListDirectiveAt(doc, j, EXCLUDE_METHODS).Some?
    requires forall k :: i <= k < j ==> ListDirectiveAt(doc, k, EXCLUDE_METHODS).None?
    ensures ScanExcludeMethods(doc, i) == ExclusionAnswer(ListDirectiveAt(doc, j, EXCLUDE_METHODS).value)
    decreases j - i
  {
    if i < j {
      ScanExcludeLeftmost(doc, i + 1, j);
    }
  }

  /** `re.search` takes the leftmost match: the first `exclude_methods`
      directive in the docstring decides, whatever follows it. */
  lemma GetExclusionLeftmost(doc: string, j: nat)
    requires j < |doc| && ListDirectiveAt(doc, j, EXCLUDE_METHODS).Some?
    requires forall k :: 0 <= k < j ==> ListDirectiveAt(doc, k, EXCLUDE_METHODS).None?
    ensures GetExclusion(doc) == ExclusionAnswer(ListDirectiveAt(doc, j, EXCLUDE_METHODS).value)
  {
    ScanExcludeLeftmost(doc, 0, j);
  }

  /** A position where the `include_methods` pattern matches: the list is mandatory. */
  predicate InclusionAt(doc: string, k: nat)
    requires k <= |doc|
  {
    ListDirectiveAt(doc, k, INCLUDE_METHODS).Some? && ListDirectiveAt(doc, k, INCLUDE_METHODS).value.Listed?
  }

  /** The scan yields the names of the first directive with a list it meets. */
  lemma {:induction false} ScanIncludeLeftmost(doc: string, i: nat, j: nat)
    requires i <= j < |doc| && InclusionAt(doc, j)
    requires forall k :: i <= k < j ==> !InclusionAt(doc, k)
    ensures ScanIncludeMethods(doc, i) == set w | w in ListDirectiveAt(doc, j, INCLUDE_METHODS).value.names
    decreases j - i
  {
    if i < j {
      ScanIncludeSkip(doc, i);
      ScanIncludeLeftmost(doc, i + 1, j);
    } else {
      ScanIncludeFound(doc, j);
    }
  }

  /** A position that starts no directive with a list is passed over. */
  lemma ScanIncludeSkip(doc: string, i: nat)
    requires i < |doc| && !InclusionAt(doc, i)
    ensures ScanIncludeMethods(doc, i) == ScanIncludeMethods(doc, i + 1)
  {
  }

  /** At a directive with a list the scan stops with its names. */
  lemma ScanIncludeFound(doc: string, i: nat)
    requires i < |doc| && InclusionAt(doc, i)
    ensures ScanIncludeMethods(doc, i) == set w | w in ListDirectiveAt(doc, i, INCLUDE_METHODS).value.names
  {
    var names := ListDirectiveAt(doc, i, INCLUDE_METHODS).value.names;
    assert ListDirectiveAt(doc, i, INCLUDE_METHODS) == Some(Listed(names));
  }

  /** The first `include_methods` directive with a list decides; bare ones
      before it are passed over. */
  lemma GetInclusionLeftmost(doc: string, j: nat)
    requires j < |doc| && InclusionAt(doc, j)
    requires forall k :: 0 <= k < j ==> !InclusionAt(doc, k)
    ensures GetInclusion(doc) == set w | w in ListDirectiveAt(doc, j, INCLUDE_METHODS).value.names
  {
    ScanIncludeLeftmost(doc, 0, j);
  }

  /** A stretch of the docstring without a `:` starts no directive. */
  lemma ColonFreeHasNoDirective(s: string, n: nat, keyword: string)
    requires n <= |s| && ':' !in s[..n]
    ensures forall k :: 0 <= k < n ==> ListDirectiveAt(s, k, keyword).None?
  {
    forall k | 0 <= k < n ensures ListDirectiveAt(s, k, keyword).None? {
      assert s[k] == s[..n][k];
    }
  }

  /** A position without a `:` cannot start a directive. */
  lemma NoDirectiveWithoutColon(doc: string, i: nat, keyword: string)
    requires i < |doc| && doc[i] != ':'
    ensures ListDirectiveAt(doc, i, keyword) == None
  {
  }


  /** The directive as it is written in a docstring: `:KEYWORD:` when no names
      are given, `:KEYWORD n1, n2, …:` otherwise. */
  function DirectiveText(keyword: string, names: seq<string>): string {
    if names == [] then [':'] + (keyword + [':'])
    else [':'] + (keyword + ([' '] + (NameListText(names) + [':'])))
  }

  /** Reading a written directive back gives the names it was written with. */
  lemma ListDirectiveRoundTrip(pre: string, keyword: string, names: seq<string>, post: string)
    requires IsWord(keyword)
    requires AllWords(names)
    ensures ListDirectiveAt(pre + DirectiveText(keyword, names) + post, |pre|, keyword)
            == if names == [] then Some(Bare) else Some(Listed(names))
  {
    var d := DirectiveText(keyword, names);
    var s := pre + d + post;
    SliceOfConcat(pre, d, post);
    DirectiveAt(s, |pre|, keyword, names, d);
  }

  lemma SliceOfSlice(s: string, i: nat, j: nat, x: nat, y: nat)
    requires i <= j <= |s| && x <= y <= j - i
    ensures s[i..j][x..y] == s[i + x..i + y]
  {
    assert forall k :: 0 <= k < y - x ==> s[i..j][x..y][k] == s[i + x + k];
  }

  lemma SliceOfConcat(pre: string, d: string, post: string)
    ensures (pre + d + post)[|pre|..|pre| + |d|] == d
  {
  }

  /** The scanner on `:KEYWORD:`. */
  lemma BareAt(s: string, i: nat, keyword: string)
    requires IsWord(keyword) && i + 2 + |keyword| <= |s|
    requires s[i] == ':' && s[i + 1..i + 1 + |keyword|] == keyword && s[i + 1 + |keyword|] == ':'
    ensures ListDirectiveAt(s, i, keyword) == Some(Bare)
  {
    assert s[i + 1] == keyword[0];
    WordCharIsNotSpace(keyword[0]);
    SkipSpacesTo(s, i + 1, i + 1);
    SkipSpacesTo(s, i + 1 + |keyword|, i + 1 + |keyword|);
  }

  /** Where the whitespace skips stop on `:KEYWORD ` followed by a word character. */
  lemma KeywordSkips(s: string, i: nat, keyword: string, c: char)
    requires IsWord(keyword) && i + 2 + |keyword| < |s|
    requires s[i + 1..i + 1 + |keyword|] == keyword && s[i + 1 + |keyword|] == ' '
    requires c == s[i + 2 + |keyword|] && IsWordChar(c)
    ensures SkipSpaces(s, i + 1) == i + 1
    ensures SkipSpaces(s, i + 1 + |keyword|) == i + 2 + |keyword|
    ensures s[i + 2 + |keyword|] != ':'
  {
    assert s[i + 1] == keyword[0];
    WordCharIsNotSpace(keyword[0]);
    WordCharIsNotSpace(c);
    SkipSpacesTo(s, i + 1, i + 1);
    SkipSpacesTo(s, i + 1 + |keyword|, i + 2 + |keyword|);
  }

  /** The scanner past `:KEYWORD`, on a name list that parses. */
  lemma ListedStep(s: string, i: nat, keyword: string, b: nat, names: seq<string>)
    requires i < |s| && s[i] == ':' && SkipSpaces(s, i + 1) == i + 1
    requires i + 1 + |keyword| <= |s| && s[i + 1..i + 1 + |keyword|] == keyword
    requires SkipSpaces(s, i + 1 + |keyword|) == b && b < |s| && s[b] != ':'
    requires ParseNameList(s, b).Some? && ParseNameList(s, b).value.0 == names
    ensures ListDirectiveAt(s, i, keyword) == Some(Listed(names))
  {
  }

  /** The pieces of a written directive that carries names. */
  lemma ListedPieces(s: string, i: nat, keyword: string, t: string, d: string)
    requires d == [':'] + (keyword + ([' '] + (t + [':'])))
    requires i + |d| <= |s| && s[i..i + |d|] == d
    ensures s[i] == ':' && s[i + 1..i + 1 + |keyword|] == keyword
    ensures s[i + 1 + |keyword|] == ' '
    ensures s[i + 2 + |keyword|..i + 2 + |keyword| + |t|] == t
    ensures s[i + 2 + |keyword| + |t|] == ':'
  {
    var n := |keyword|;
    assert s[i] == d[0];
    assert d[1..1 + n] == keyword;
    SliceOfSlice(s, i, i + |d|, 1, 1 + n);
    assert s[i + 1 + n] == d[1 + n];
    assert d[2 + n..2 + n + |t|] == t;
    SliceOfSlice(s, i, i + |d|, 2 + n, 2 + n + |t|);
    assert s[i + 2 + n + |t|] == d[2 + n + |t|];
  }

  /** The pieces of a written directive without names. */
  lemma BarePieces(s: string, i: nat, keyword: string, d: string)
    requires d == [':'] + (keyword + [':'])
    requires i + |d| <= |s| && s[i..i + |d|] == d
    ensures s[i] == ':' && s[i + 1..i + 1 + |keyword|] == keyword
    ensures s[i + 1 + |keyword|] == ':'
  {
    var n := |keyword|;
    assert s[i] == d[0];
    assert d[1..1 + n] == keyword;
    SliceOfSlice(s, i, i + |d|, 1, 1 + n);
    assert s[i + 1 + n] == d[1 + n];
  }

  /** The scanner on `:KEYWORD n1, n2, …:`. */
  lemma ListedNamesAt(s: string, i: nat, keyword: string, names: seq<string>, t: string)
    requires IsWord(keyword) && |names| > 0 && AllWords(names) && t == NameListText(names)
    requires i + 2 + |keyword| + |t| < |s|
    requires s[i] == ':' && s[i + 1..i + 1 + |keyword|] == keyword
    requires s[i + 1 + |keyword|] == ' '
    requires s[i + 2 + |keyword|..i + 2 + |keyword| + |t|] == t
    requires s[i + 2 + |keyword| + |t|] == ':'
    ensures ListDirectiveAt(s, i, keyword) == Some(Listed(names))
  {
    ListedFacts(s, i, keyword, names, t);
    ListedStep(s, i, keyword, i + 2 + |keyword|, names);
  }

  lemma ListedFacts(s: string, i: nat, keyword: string, names: seq<string>, t: string)
    requires IsWord(keyword) && |names| > 0 && AllWords(names) && t == NameListText(names)
    requires i + 2 + |keyword| + |t| < |s|
    requires s[i + 1..i + 1 + |keyword|] == keyword
    requires s[i + 1 + |keyword|] == ' '
    requires s[i + 2 + |keyword|..i + 2 + |keyword| + |t|] == t
    requires s[i + 2 + |keyword| + |t|] == ':'
    ensures SkipSpaces(s, i + 1) == i + 1
    ensures SkipSpaces(s, i + 1 + |keyword|) == i + 2 + |keyword|
    ensures s[i + 2 + |keyword|] != ':'
    ensures ParseNameList(s, i + 2 + |keyword|).Some? && ParseNameList(s, i + 2 + |keyword|).value.0 == names
  {
    var b := i + 2 + |keyword|;
    assert IsWord(names[0]);
    NameListHead(names, t);
    assert s[b] == t[0];
    KeywordSkips(s, i, keyword, t[0]);
    ParseNameListRoundTrip(s, b, names, t);
  }

  lemma DirectiveAt(s: string, i: nat, keyword: string, names: seq<string>, d: string)
    requires IsWord(keyword)
    requires AllWords(names)
    requires d == DirectiveText(keyword, names)
    requires i + |d| <= |s| && s[i..i + |d|] == d
    ensures ListDirectiveAt(s, i, keyword) == if names == [] then Some(Bare) else Some(Listed(names))
  {
    if names == [] {
      BarePieces(s, i, keyword, d);
      BareAt(s, i, keyword);
    } else {
      var t := NameListText(names);
      ListedPieces(s, i, keyword, t, d);
      ListedNamesAt(s, i, keyword, names, t);
    }
  }

  lemma KeywordsAreWords()
    ensures IsWord(EXCLUDE_METHODS) && IsWord(INCLUDE_METHODS)
    ensures ':' !in EXCLUDE_METHODS && ':' !in INCLUDE_METHODS
  {
  }

  /** With no earlier directive, `:exclude_methods:` excludes every method and
      `:exclude_methods n1, n2, …:` exactly the listed names. */
  lemma ExcludeMethodsDirective(pre: string, names: seq<string>, post: string)
    requires AllWords(names)
    requires forall k :: 0 <= k < |pre|
               ==> ListDirectiveAt(pre + DirectiveText(EXCLUDE_METHODS, names) + post, k, EXCLUDE_METHODS).None?
    ensures GetExclusion(pre + DirectiveText(EXCLUDE_METHODS, names) + post)
            == if names == [] then All else Names(set w | w in names)
  {
    var s := pre + DirectiveText(EXCLUDE_METHODS, names) + post;
    KeywordsAreWords();
    ListDirectiveRoundTrip(pre, EXCLUDE_METHODS, names, post);
    GetExclusionLeftmost(s, |pre|);
  }

  /** With no earlier directive carrying a list, `:include_methods n1, n2, …:`
      includes exactly the listed names. */
  lemma IncludeMethodsDirective(pre: string, names: seq<string>, post: string)
    requires names != [] && AllWords(names)
    requires forall k :: 0 <= k < |pre| ==> !InclusionAt(pre + DirectiveText(INCLUDE_METHODS, names) + post, k)
    ensures GetInclusion(pre + DirectiveText(INCLUDE_METHODS, names) + post) == set w | w in names
  {
    var s := pre + DirectiveText(INCLUDE_METHODS, names) + post;
    KeywordsAreWords();
    ListDirectiveRoundTrip(pre, INCLUDE_METHODS, names, post);
    GetInclusionLeftmost(s, |pre|);
  }

  /** A class docstring that excludes every method and then, after some
      whitespace, names the methods to keep (as `MarkdownFormatter`'s does):
      both directives are read. */
  lemma ExcludeAllIncludeSome(pre: string, gap: string, names: seq<string>, post: string)
    requires ':' !in pre && AllSpace(gap)
    requires names != [] && AllWords(names)
    ensures GetExclusion(pre + DirectiveText(EXCLUDE_METHODS, []) + gap + DirectiveText(INCLUDE_METHODS, names) + post) == All
    ensures GetInclusion(pre + DirectiveText(EXCLUDE_METHODS, []) + gap + DirectiveText(INCLUDE_METHODS, names) + post)
            == set w | w in names
  {
    var e := DirectiveText(EXCLUDE_METHODS, []);
    var inc := DirectiveText(INCLUDE_METHODS, names);
    assert pre + e + gap + inc + post == pre + e + (gap + inc + post);
    BareExclusionFirst(pre, gap + inc + post);
    IncludeAfterExclusion(pre, gap, names, post);
  }

  /** A bare `:exclude_methods:` with no `:` before it excludes every method. */
  lemma BareExclusionFirst(pre: string, post: string)
    requires ':' !in pre
    ensures GetExclusion(pre + DirectiveText(EXCLUDE_METHODS, []) + post) == All
  {
    var s := pre + DirectiveText(EXCLUDE_METHODS, []) + post;
    assert s[..|pre|] == pre;
    ColonFreeHasNoDirective(s, |pre|, EXCLUDE_METHODS);
    ExcludeMethodsDirective(pre, [], post);
  }

  /** An `include_methods` list after `:exclude_methods:` and whitespace is found. */
  lemma IncludeAfterExclusion(pre: string, gap: string, names: seq<string>, post: string)
    requires ':' !in pre && AllSpace(gap)
    requires names != [] && AllWords(names)
    ensures GetInclusion(pre + DirectiveText(EXCLUDE_METHODS, []) + gap + DirectiveText(INCLUDE_METHODS, names) + post)
            == set w | w in names
  {
    var p2 := pre + DirectiveText(EXCLUDE_METHODS, []) + gap;
    var inc := DirectiveText(INCLUDE_METHODS, names);
    AppendAssoc(p2, inc, post);
    NoInclusionBeforeAny(pre, gap, inc + post);
    IncludeMethodsDirective(p2, names, post);
  }

  /** The same, at every position before the `:` that follows. */
  lemma NoInclusionBeforeAny(pre: string, gap: string, tail: string)
    requires ':' !in pre && AllSpace(gap) && |tail| > 0 && tail[0] == ':'
    ensures var p2 := pre + DirectiveText(EXCLUDE_METHODS, []) + gap;
      forall k :: 0 <= k < |p2| ==> !InclusionAt(p2 + tail, k)
  {
    forall k | 0 <= k < |pre| + |DirectiveText(EXCLUDE_METHODS, [])| + |gap|
      ensures !InclusionAt(pre + DirectiveText(EXCLUDE_METHODS, []) + gap + tail, k)
    {
      NoInclusionBeforeList(pre, gap, tail, k);
    }
  }

  /** Neither `:exclude_methods:` nor the whitespace after it starts an
      `include_methods` directive when a `:` follows. */
  lemma NoInclusionBeforeList(pre: string, gap: string, tail: string, k: nat)
    requires ':' !in pre && AllSpace(gap) && |tail| > 0 && tail[0] == ':'
    requires k < |pre| + |DirectiveText(EXCLUDE_METHODS, [])| + |gap|
    ensures !InclusionAt(pre + DirectiveText(EXCLUDE_METHODS, []) + gap + tail, k)
  {
    var e := DirectiveText(EXCLUDE_METHODS, []);
    var s := pre + e + gap + tail;
    var n := |pre|;
    KeywordsAreWords();
    BareDirectivePieces(pre, EXCLUDE_METHODS, gap + tail);
    assert s == pre + e + (gap + tail);
    if k < n {
      assert s[k] == pre[k];
      NoDirectiveWithoutColon(s, k, INCLUDE_METHODS);
    } else if k == n {
      OtherKeywordAt(s, n, INCLUDE_METHODS);
    } else if k < n + 16 {
      assert s[k] == EXCLUDE_METHODS[k - n - 1];
      NoDirectiveWithoutColon(s, k, INCLUDE_METHODS);
    } else if k == n + 16 {
      var a := n + 17 + |gap|;
      assert s[a] == ':';
      assert s[n + 17..a] == gap;
      ColonAfterSpaces(s, n + 16, a, INCLUDE_METHODS);
    } else {
      assert s[k] == gap[k - n - 17];
      NoDirectiveWithoutColon(s, k, INCLUDE_METHODS);
    }
  }

  /** `:exclude_methods` is not the start of an `include_methods` directive. */
  lemma OtherKeywordAt(s: string, n: nat, keyword: string)
    requires n + 16 <= |s| && s[n + 1..n + 16] == EXCLUDE_METHODS
    requires |keyword| == 15 && keyword[0] != EXCLUDE_METHODS[0]
    ensures ListDirectiveAt(s, n, keyword).None?
  {
    assert s[n + 1] == EXCLUDE_METHODS[0];
    WordCharIsNotSpace(s[n + 1]);
    SkipSpacesTo(s, n + 1, n + 1);
    assert s[n + 1..n + 16][0] != keyword[0];
  }

  /** A `:` followed only by whitespace and then another `:` starts no directive. */
  lemma ColonAfterSpaces(s: string, b: nat, a: nat, keyword: string)
    requires b < a < |s| && s[a] == ':' && AllSpace(s[b + 1..a])
    requires |keyword| > 0 && keyword[0] != ':'
    ensures ListDirectiveAt(s, b, keyword).None?
  {
    forall x | b + 1 <= x < a ensures IsSpace(s[x]) {
      assert s[x] == s[b + 1..a][x - b - 1];
    }
    SkipSpacesTo(s, b + 1, a);
    if a + |keyword| <= |s| {
      assert s[a..a + |keyword|][0] != keyword[0];
    }
  }

  /** `:include_methods:` with no list is not an inclusion, wherever it is
      written: the list is mandatory. A docstring whose only inclusion
      directive is such a bare one includes nothing. */
  lemma IncludeNeedsNames(pre: string, post: string)
    ensures !InclusionAt(pre + DirectiveText(INCLUDE_METHODS, []) + post, |pre|)
    ensures var s := pre + DirectiveText(INCLUDE_METHODS, []) + post;
      (forall k :: 0 <= k < |s| && k != |pre| ==> !InclusionAt(s, k)) ==> GetInclusion(s) == {}
  {
    KeywordsAreWords();
    ListDirectiveRoundTrip(pre, INCLUDE_METHODS, [], post);
  }

  /** A bare directive in a text, cut into the text before it, its keyword and the text after it. */
  lemma BareDirectivePieces(pre: string, keyword: string, post: string)
    ensures var s := pre + DirectiveText(keyword, []) + post;
      |s| == |pre| + |keyword| + 2 + |post| &&
      s[0..|pre|] == pre && s[|pre| + 1..|pre| + 1 + |keyword|] == keyword &&
      s[|pre| + 2 + |keyword|..] == post
  {
    var s := pre + DirectiveText(keyword, []) + post;
    assert s == pre + [':'] + keyword + [':'] + post;
  }

  // ---------------------------------------------------------------------------
  // _get_exclusion_level
  // ---------------------------------------------------------------------------

  datatype Level = Exclude | ExcludeChildren | ExcludeMethodsLevel

  function LevelKey(l: Level): string {
    match l
    case Exclude => "exclude"
    case ExcludeChildren => "exclude_children"
    case ExcludeMethodsLevel => "exclude_methods"
  }

  /** Position of a level in the order broadest first. */
  function Rank(l: Level): nat {
    match l
    case Exclude => 0
    case ExcludeChildren => 1
    case ExcludeMethodsLevel => 2
  }

  /** The record has the level's key and its value is truthy; `memb` maps each
      key of the record to the truth value of its entry. */
  predicate IsSet(memb: map<string, bool>, l: Level) {
    LevelKey(l) in memb && memb[LevelKey(l)]
  }

  /** `_get_exclusion_level(memb)`: the broadest level that is set, or none. */
  function ExclusionLevel(memb: map<string, bool>): (r: Option<Level>)
    ensures r.None? <==> forall l :: !IsSet(memb, l)
    ensures r.Some? ==> IsSet(memb, r.value)
    ensures r.Some? ==> forall l :: Rank(l) < Rank(r.value) ==> !IsSet(memb, l)
  {
    if IsSet(memb, Exclude) then Some(Exclude)
    else if IsSet(memb, ExcludeChildren) then Some(ExcludeChildren)
    else if IsSet(memb, ExcludeMethodsLevel) then Some(ExcludeMethodsLevel)
    else None
  }

  /** The levels in the order `_get_exclusion_level` tries them, broadest first. */
  const ORDERED_LEVELS: seq<Level> := [Exclude, ExcludeChildren, ExcludeMethodsLevel]

  /** `_get_exclusion_level(memb)`: tries the levels in order and returns the
      first one that is set. */
  method GetExclusionLevel(memb: map<string, bool>) returns (r: Option<Level>)
    ensures r == ExclusionLevel(memb)
  {
    assert ORDERED_LEVELS[0] == Exclude && ORDERED_LEVELS[1] == ExcludeChildren
      && ORDERED_LEVELS[2] == ExcludeMethodsLevel;
    for i := 0 to |ORDERED_LEVELS|
      invariant forall j :: 0 <= j < i ==> !IsSet(memb, ORDERED_LEVELS[j])
    {
      if IsSet(memb, ORDERED_LEVELS[i]) {
        return Some(ORDERED_LEVELS[i]);
      }
    }
    return None;
  }

  /** The records the collector builds for modules and classes carry none of
      the level keys, so no level is ever reported for them. */
  lemma CollectedRecordsHaveNoLevel(memb: map<string, bool>)
    requires memb.Keys <= {"classes", "functions", "name", "doc", "methods", "constants", "static_methods"}
    ensures ExclusionLevel(memb).None?
  {
    forall l ensures !IsSet(memb, l) {
      assert LevelKey(l) !in {"classes", "functions", "name", "doc", "methods", "constants", "static_methods"};
    }
  }
}
