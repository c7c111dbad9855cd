/**
 * The parts of java.lang.String that the core relies on, with Java's own edge cases:
 * `trim` (strips every char up to U+0020), `split` with a regular-expression separator
 * (a leading empty piece is kept, trailing empty pieces are dropped, and a string with no
 * separator splits into itself), `replace` (every non-overlapping occurrence, left to right),
 * and ASCII case folding.
 */
module JavaStrings {

  /** `String.trim` removes a leading or trailing char when its code is at most U+0020. */
  predicate IsTrimmable(c: char) {
    c <= ' '
  }

  /** The characters of the regular-expression class `\s`: [ \t\n\x0B\f\r]. */
  predicate IsRegexSpace(c: char) {
    c == ' ' || c == '\t' || c == '\n' || c == '\U{0B}' || c == '\U{0C}' || c == '\r'
  }

  /** Every `\s` char is also removed by `trim`. */
  lemma RegexSpaceIsTrimmable(c: char)
    ensures IsRegexSpace(c) ==> IsTrimmable(c)
  {
  }

  function TrimStart(s: string): (r: string)
    ensures |r| <= |s| && r == s[|s| - |r|..]
    ensures r != [] ==> !IsTrimmable(r[0])
    ensures forall i :: 0 <= i < |s| - |r| ==> IsTrimmable(s[i])
  {
    if s != [] && IsTrimmable(s[0]) then TrimStart(s[1..]) else s
  }

  function TrimEnd(s: string): (r: string)
    ensures |r| <= |s| && r == s[..|r|]
    ensures r != [] ==> !IsTrimmable(r[|r| - 1])
    ensures forall i :: |r| <= i < |s| ==> IsTrimmable(s[i])
  {
    if s != [] && IsTrimmable(s[|s| - 1]) then TrimEnd(s[..|s| - 1]) else s
  }

  /** `String.trim`. */
  function Trim(s: string): (r: string)
    ensures r != [] ==> !IsTrimmable(r[0]) && !IsTrimmable(r[|r| - 1])
    ensures exists a {:trigger s[a..]} :: 0 <= a <= |s| - |r| && r == s[a..a + |r|]
  {
    var t := TrimStart(s);
    var r := TrimEnd(t);
    assert r == s[|s| - |t|..][..|r|] == s[|s| - |t|..|s| - |t| + |r|];
    r
  }

  /** A string that `trim` leaves unchanged. */
  predicate IsTrimmed(s: string) {
    s == [] || (!IsTrimmable(s[0]) && !IsTrimmable(s[|s| - 1]))
  }

  lemma TrimOfTrimmed(s: string)
    requires IsTrimmed(s)
    ensures Trim(s) == s
  {
  }

  /** `s.trim().isEmpty()`. */
  predicate IsBlank(s: string) {
    Trim(s) == []
  }

  /** A string is blank exactly when every one of its chars is trimmable. */
  lemma {:induction false} BlankIffAllTrimmable(s: string)
    ensures IsBlank(s) <==> forall i :: 0 <= i < |s| ==> IsTrimmable(s[i])
  {
    if forall i :: 0 <= i < |s| ==> IsTrimmable(s[i]) {
      TrimStartAllTrimmable(s);
    }
  }

  lemma {:induction false} TrimStartAllTrimmable(s: string)
    requires forall i :: 0 <= i < |s| ==> IsTrimmable(s[i])
    ensures TrimStart(s) == []
  {
    if s != [] {
      TrimStartAllTrimmable(s[1..]);
    }
  }

  // ----- ASCII case folding (Java's default for equalsIgnoreCase on ASCII text) -----

  function UpperChar(c: char): char {
    if 'a' <= c <= 'z' then (c as int - 32) as char else c
  }

  function LowerChar(c: char): char {
    if 'A' <= c <= 'Z' then (c as int + 32) as char else c
  }

  function ToUpper(s: string): (r: string)
    ensures |r| == |s| && forall i :: 0 <= i < |s| ==> r[i] == UpperChar(s[i])
  {
    seq(|s|, i requires 0 <= i < |s| => UpperChar(s[i]))
  }

  function ToLower(s: string): (r: string)
    ensures |r| == |s| && forall i :: 0 <= i < |s| ==> r[i] == LowerChar(s[i])
  {
    seq(|s|, i requires 0 <= i < |s| => LowerChar(s[i]))
  }

  predicate SameCharIgnoringCase(a: char, b: char) {
    UpperChar(a) == UpperChar(b)
  }

  /** `String.equalsIgnoreCase`. */
  predicate EqualsIgnoreCase(a: string, b: string) {
    |a| == |b| && forall i :: 0 <= i < |a| ==> SameCharIgnoringCase(a[i], b[i])
  }

  // ----- prefixes and substrings -----

  /** `String.startsWith`. */
  predicate StartsWith(s: string, prefix: string) {
    |prefix| <= |s| && s[..|prefix|] == prefix
  }

  predicate OccursAt(s: string, t: string, i: int) {
    0 <= i && i + |t| <= |s| && s[i..i + |t|] == t
  }

  /** `String.contains`. */
  predicate Contains(s: string, t: string) {
    exists i :: 0 <= i <= |s| - |t| && OccursAt(s, t, i)
  }

  predicate OccursAtIgnoringCase(s: string, t: string, i: int) {
    0 <= i && i + |t| <= |s| && EqualsIgnoreCase(s[i..i + |t|], t)
  }

  /** A substring test that ignores case (SQL LIKE '%t%' under a case-insensitive collation). */
  predicate ContainsIgnoringCase(s: string, t: string) {
    exists i :: 0 <= i <= |s| - |t| && OccursAtIgnoringCase(s, t, i)
  }

  // ----- String.replace(CharSequence, CharSequence) -----

  /** `s.replace("", r)`: `r` before every char and once at the end. */
  function InterleaveEmpty(s: string, r: string): string {
    if s == [] then r else r + [s[0]] + InterleaveEmpty(s[1..], r)
  }

  /** `s.replace(t, r)`: every non-overlapping occurrence of `t`, scanning left to right. */
  function Replace(s: string, t: string, r: string): string
    decreases |s|
  {
    if t == [] then InterleaveEmpty(s, r)
    else if |s| < |t| then s
    else if s[..|t|] == t then r + Replace(s[|t|..], t, r)
    else [s[0]] + Replace(s[1..], t, r)
  }

  /** Replacing a target that does not occur leaves the string as it was. */
  lemma {:induction false} ReplaceAbsent(s: string, t: string, r: string)
    requires t != [] && !Contains(s, t)
    ensures Replace(s, t, r) == s
  {
    if |s| >= |t| {
      assert !OccursAt(s, t, 0);
      forall i | 0 <= i <= |s[1..]| - |t|
        ensures !OccursAt(s[1..], t, i)
      {
        assert !OccursAt(s, t, i + 1);
        assert s[1..][i..i + |t|] == s[i + 1..i + 1 + |t|];
      }
      ReplaceAbsent(s[1..], t, r);
    }
  }

  /** A one-char target: every occurrence of `c` becomes `r`, and nothing else changes. */
  lemma {:induction false} ReplaceCharOfCons(c: char, x: char, s: string, r: string)
    ensures Replace([x] + s, [c], r) == (if x == c then r else [x]) + Replace(s, [c], r)
  {
    assert ([x] + s)[1..] == s;
    assert ([x] + s)[..1] == [x];
  }

  /** Removing every occurrence of a char (`replace(",", "")`) leaves none behind. */
  lemma {:induction false} RemoveCharLeavesNone(s: string, c: char)
    ensures c !in Replace(s, [c], [])
  {
    if s != [] {
      assert s == [s[0]] + s[1..];
      ReplaceCharOfCons(c, s[0], s[1..], []);
      RemoveCharLeavesNone(s[1..], c);
    }
  }

  // ----- String.split with a regular-expression separator -----

  /**
   * Java's post-processing of the pieces of a split with limit 0: a string in which the
   * separator never matched splits into itself; otherwise trailing empty pieces are dropped.
   */
  function JavaSplitResult(pieces: seq<string>): seq<string> {
    if |pieces| == 1 then pieces else DropTrailingEmpty(pieces)
  }

  function DropTrailingEmpty(pieces: seq<string>): (r: seq<string>)
    ensures |r| <= |pieces| && r == pieces[..|r|]
    ensures r != [] ==> r[|r| - 1] != []
    ensures forall i :: |r| <= i < |pieces| ==> pieces[i] == []
  {
    if pieces != [] && pieces[|pieces| - 1] == [] then DropTrailingEmpty(pieces[..|pieces| - 1])
    else pieces
  }

  predicate AllEmpty(pieces: seq<string>) {
    forall i :: 0 <= i < |pieces| ==> pieces[i] == []
  }

  /**
   * A split with limit 0 returns an empty array exactly when the separator matched and every
   * piece is empty; otherwise its element 0 is the first piece.
   */
  lemma JavaSplitHead(pieces: seq<string>)
    requires |pieces| >= 1
    ensures JavaSplitResult(pieces) == [] <==> |pieces| > 1 && AllEmpty(pieces)
    ensures JavaSplitResult(pieces) != [] ==> JavaSplitResult(pieces)[0] == pieces[0]
  {
    var r := JavaSplitResult(pieces);
    if |pieces| > 1 && r != [] {
      assert r[|r| - 1] == pieces[|r| - 1];
      assert r[0] == pieces[0];
    }
  }

  /** Every piece around each single occurrence of `c` (Java's split with limit -1). */
  function SplitAtChar(s: string, c: char): (pieces: seq<string>)
    ensures |pieces| >= 1
    ensures forall i :: 0 <= i < |pieces| ==> c !in pieces[i]
  {
    if s == [] then [[]]
    else
      var rest := SplitAtChar(s[1..], c);
      if s[0] == c then [[]] + rest else [[s[0]] + rest[0]] + rest[1..]
  }

  /** `s.split("\\n")`. */
  function SplitLines(s: string): (lines: seq<string>)
    ensures forall i :: 0 <= i < |lines| ==> '\n' !in lines[i]
  {
    JavaSplitResult(SplitAtChar(s, '\n'))
  }

  /** Each line followed by a newline, as a StringBuilder that appends "...\n" per line builds. */
  function Terminated(lines: seq<string>): string {
    if lines == [] then [] else lines[0] + "\n" + Terminated(lines[1..])
  }

  /** Appending one more line appends it, terminated, to the text. */
  lemma {:induction false} TerminatedSnoc(lines: seq<string>, line: string)
    ensures Terminated(lines + [line]) == Terminated(lines) + line + "\n"
    decreases |lines|
  {
    if lines != [] {
      assert (lines + [line])[1..] == lines[1..] + [line];
      TerminatedSnoc(lines[1..], line);
    }
  }

  lemma {:induction false} SplitAtCharAppend(x: string, c: char, y: string)
    requires c !in x
    ensures SplitAtChar(x + [c] + y, c) == [x] + SplitAtChar(y, c)
  {
    if x == [] {
      assert ([c] + y)[1..] == y;
    } else {
      assert (x + [c] + y)[1..] == x[1..] + [c] + y;
      SplitAtCharAppend(x[1..], c, y);
      assert [x[0]] + x[1..] == x;
    }
  }

  lemma {:induction false} SplitTerminated(lines: seq<string>)
    requires forall i :: 0 <= i < |lines| ==> '\n' !in lines[i]
    ensures SplitAtChar(Terminated(lines), '\n') == lines + [[]]
  {
    if lines != [] {
      SplitAtCharAppend(lines[0], '\n', Terminated(lines[1..]));
      SplitTerminated(lines[1..]);
      assert lines == [lines[0]] + lines[1..];
    }
  }

  /**
   * Splitting newline-terminated lines gives the lines back, provided the last one is not
   * empty; no lines at all give the single empty line of `"".split("\\n")`.
   */
  lemma SplitLinesOfTerminated(lines: seq<string>)
    requires forall i :: 0 <= i < |lines| ==> '\n' !in lines[i]
    requires lines != [] ==> lines[|lines| - 1] != []
    ensures SplitLines(Terminated(lines)) == if lines == [] then [[]] else lines
  {
    SplitTerminated(lines);
    var pieces := lines + [[]];
    if lines != [] {
      assert pieces[..|pieces| - 1] == lines;
    }
  }

  /** The length of the run of `\s` chars at the start of `s`. */
  function SpaceRun(s: string): (n: nat)
    ensures n <= |s|
    ensures forall i :: 0 <= i < n ==> IsRegexSpace(s[i])
    ensures n < |s| ==> !IsRegexSpace(s[n])
  {
    if s != [] && IsRegexSpace(s[0]) then 1 + SpaceRun(s[1..]) else 0
  }

  /** Text whose first line is not blank is not blank. */
  lemma TerminatedNotBlank(lines: seq<string>)
    requires lines != [] && !IsBlank(lines[0])
    ensures !IsBlank(Terminated(lines))
  {
    var text := Terminated(lines);
    NotBlankPrefix(lines[0], text);
  }

  /** Text that starts with a non-blank string is not blank. */
  lemma NotBlankPrefix(a: string, text: string)
    requires !IsBlank(a) && |a| <= |text| && text[..|a|] == a
    ensures !IsBlank(text)
  {
    BlankIffAllTrimmable(a);
    BlankIffAllTrimmable(text);
    var j :| 0 <= j < |a| && !IsTrimmable(a[j]);
    assert text[j] == text[..|a|][j];
  }

  /** Every piece around each maximal run of `\s` chars (the separator `\s+`, limit -1). */
  function SplitAtSpaceRuns(s: string): (pieces: seq<string>)
    ensures |pieces| >= 1
    ensures |pieces| == 1 <==> forall i :: 0 <= i < |s| ==> !IsRegexSpace(s[i])
    ensures forall i, j :: 0 <= i < |pieces| && 0 <= j < |pieces[i]| ==> !IsRegexSpace(pieces[i][j])
    decreases |s|
  {
    if s == [] then [[]]
    else if IsRegexSpace(s[0]) then [[]] + SplitAtSpaceRuns(s[SpaceRun(s)..])
    else
      var rest := SplitAtSpaceRuns(s[1..]);
      var r := [[s[0]] + rest[0]] + rest[1..];
      assert |r| == 1 ==> forall i :: 0 <= i < |s| ==> !IsRegexSpace(s[i]) by {
        if |r| == 1 {
          forall i | 0 <= i < |s| ensures !IsRegexSpace(s[i]) {
            if i > 0 { assert s[i] == s[1..][i - 1]; }
          }
        }
      }
      r
  }

  /** Splitting only cuts: every char of every piece is a char of the string. */
  lemma {:induction false} SplitAtSpaceRunsChars(s: string)
    ensures forall i, c :: 0 <= i < |SplitAtSpaceRuns(s)| && c in SplitAtSpaceRuns(s)[i] ==> c in s
    decreases |s|
  {
    if s != [] {
      if IsRegexSpace(s[0]) {
        var t := s[SpaceRun(s)..];
        SplitAtSpaceRunsChars(t);
        assert forall c :: c in t ==> c in s;
        assert forall i :: 1 <= i < |SplitAtSpaceRuns(s)| ==> SplitAtSpaceRuns(s)[i] == SplitAtSpaceRuns(t)[i - 1];
      } else {
        var t := s[1..];
        SplitAtSpaceRunsChars(t);
        assert forall c :: c in t ==> c in s;
        var rest := SplitAtSpaceRuns(t);
        assert forall i :: 1 <= i < |SplitAtSpaceRuns(s)| ==> SplitAtSpaceRuns(s)[i] == rest[i];
        assert SplitAtSpaceRuns(s)[0] == [s[0]] + rest[0];
      }
    }
  }

  /** `s.split("\\s+")`. */
  function SplitWhitespace(s: string): seq<string> {
    JavaSplitResult(SplitAtSpaceRuns(s))
  }

  /** Every piece around each leftmost match of `g\s+` (lower-case g, as `split("g\\s+")` sees it). */
  function SplitAtGramMarker(s: string): (pieces: seq<string>)
    ensures |pieces| >= 1
    decreases |s|
  {
    if s == [] then [[]]
    else if s[0] == 'g' && |s| > 1 && IsRegexSpace(s[1]) then [[]] + SplitAtGramMarker(s[1 + SpaceRun(s[1..])..])
    else
      var rest := SplitAtGramMarker(s[1..]);
      [[s[0]] + rest[0]] + rest[1..]
  }

  /** The first piece of a split never reaches past the first separator: it is a prefix. */
  lemma {:induction false} GramMarkerHeadIsPrefix(s: string)
    ensures StartsWith(s, SplitAtGramMarker(s)[0])
    decreases |s|
  {
    if s != [] && !(s[0] == 'g' && |s| > 1 && IsRegexSpace(s[1])) {
      GramMarkerHeadIsPrefix(s[1..]);
    }
  }
}
