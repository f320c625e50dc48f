/**
 * The description `listRecipes` prints beside each recipe: the line after the first
 * line of the README that starts with `## Overview`, trimmed.
 *
 * The rule is written with the JavaScript building blocks it uses: `split('\n')`,
 * `find`, `indexOf`, an index that may fall off the end (`undefined || ''`) and
 * `String.prototype.trim`.
 */
module Listing {
  import opened Wrappers

  const Heading: string := "## Overview"
  const Fallback: string := "DevContainer recipe"

  // ---------------------------------------------------------------- split and join

  /** `String.prototype.split` with a one-character separator. */
  function Split(s: string, sep: char): (parts: seq<string>)
    ensures |parts| >= 1
    ensures forall i :: 0 <= i < |parts| ==> sep !in parts[i]
    ensures Join(parts, sep) == s
  {
    if s == [] then
      [""]
    else
      var rest := Split(s[1..], sep);
      if s[0] == sep then
        assert Join([""] + rest, sep) == [sep] + Join(rest, sep) by {
          assert ([""] + rest)[1..] == rest;
        }
        [""] + rest
      else
        assert ([[s[0]] + rest[0]] + rest[1..])[1..] == rest[1..];
        [[s[0]] + rest[0]] + rest[1..]
  }

  /** The parts put back together, the separator between each two. */
  function Join(parts: seq<string>, sep: char): string
    requires |parts| >= 1
  {
    if |parts| == 1 then parts[0] else parts[0] + [sep] + Join(parts[1..], sep)
  }

  /** Joining then splitting gives the parts back when no part holds the separator. */
  lemma {:induction false} SplitJoin(parts: seq<string>, sep: char)
    requires |parts| >= 1
    requires forall i :: 0 <= i < |parts| ==> sep !in parts[i]
    ensures Split(Join(parts, sep), sep) == parts
  {
    if |parts| == 1 {
      SplitPlain(parts[0], sep);
    } else {
      forall i | 0 <= i < |parts[1..]|
        ensures sep !in parts[1..][i]
      {
        assert parts[1..][i] == parts[i + 1];
      }
      SplitJoin(parts[1..], sep);
      SplitAfter(parts[0], Join(parts[1..], sep), sep);
      assert parts == [parts[0]] + parts[1..];
    }
  }

  /** Text without the separator is one part. */
  lemma {:induction false} SplitPlain(s: string, sep: char)
    requires sep !in s
    ensures Split(s, sep) == [s]
  {
    if s != [] {
      SplitPlain(s[1..], sep);
      assert [s[0]] + s[1..] == s;
    }
  }

  /** A part without the separator, then the separator, is split off in front. */
  lemma {:induction false} SplitAfter(head: string, tail: string, sep: char)
    requires sep !in head
    ensures Split(head + [sep] + tail, sep) == [head] + Split(tail, sep)
  {
    var s := head + [sep] + tail;
    if head == [] {
      assert s[1..] == tail;
    } else {
      assert s[1..] == head[1..] + [sep] + tail;
      SplitAfter(head[1..], tail, sep);
      assert [head[0]] + head[1..] == head;
    }
  }

  /** The first part is the text before the first separator, or all of it. */
  lemma {:induction false} SplitFirst(s: string, sep: char)
    ensures var first := Split(s, sep)[0];
            && first == s[..|first|]
            && sep !in first
            && (|first| == |s| || s[|first|] == sep)
  {
    if s != [] {
      SplitFirst(s[1..], sep);
    }
  }

  // ---------------------------------------------------------------- find and indexOf

  predicate StartsWith(s: string, prefix: string) {
    |prefix| <= |s| && s[..|prefix|] == prefix
  }

  /** `lines.find(line => line.startsWith('## Overview'))`; `None` is `undefined`. */
  function Find(lines: seq<string>): (r: Option<string>)
    ensures r.Some? ==> r.value in lines && StartsWith(r.value, Heading)
    ensures r.None? <==> forall i :: 0 <= i < |lines| ==> !StartsWith(lines[i], Heading)
  {
    if lines == [] then None
    else if StartsWith(lines[0], Heading) then Some(lines[0])
    else
      var r := Find(lines[1..]);
      assert forall i :: 1 <= i < |lines| ==> lines[i] == lines[1..][i - 1];
      r
  }

  /**
   * `lines.indexOf(x)`: the first position holding `x`, or -1. No line is `undefined`,
   * so looking `None` up always gives -1.
   */
  function IndexOf(lines: seq<string>, x: Option<string>): (k: int)
    ensures -1 <= k < |lines|
    ensures k >= 0 ==> x == Some(lines[k]) && forall j :: 0 <= j < k ==> Some(lines[j]) != x
    ensures k == -1 <==> forall j :: 0 <= j < |lines| ==> Some(lines[j]) != x
  {
    if lines == [] then -1
    else if x == Some(lines[0]) then 0
    else
      var k := IndexOf(lines[1..], x);
      assert forall j :: 1 <= j < |lines| ==> lines[j] == lines[1..][j - 1];
      if k < 0 then -1 else k + 1
  }

  /**
   * Looking up what `find` returned gives the position of the first heading line, and
   * -1 when there is none.
   */
  lemma {:induction false} IndexOfFind(lines: seq<string>)
    ensures var k := IndexOf(lines, Find(lines));
            && (Find(lines).None? ==> k == -1)
            && (Find(lines).Some? ==>
                  0 <= k && StartsWith(lines[k], Heading)
                  && forall j :: 0 <= j < k ==> !StartsWith(lines[j], Heading))
  {
    if lines != [] && !StartsWith(lines[0], Heading) {
      IndexOfFind(lines[1..]);
      assert forall j :: 1 <= j < |lines| ==> lines[j] == lines[1..][j - 1];
    }
  }

  // ---------------------------------------------------------------- trim

  /** The characters `String.prototype.trim` removes: white space and line terminators. */
  predicate IsSpace(c: char) {
    || c == '\t' || c == '\n' || c == '\U{B}' || c == '\U{C}' || c == '\r' || c == ' '
    || c == '\U{A0}' || c == '\U{1680}' || ('\U{2000}' <= c <= '\U{200A}')
    || c == '\U{2028}' || c == '\U{2029}' || c == '\U{202F}' || c == '\U{205F}'
    || c == '\U{3000}' || c == '\U{FEFF}'
  }

  /** How many white-space characters `s` starts with. */
  function Lead(s: string): (n: nat)
    ensures n <= |s|
    ensures forall i :: 0 <= i < n ==> IsSpace(s[i])
    ensures n == |s| || !IsSpace(s[n])
  {
    if s != [] && IsSpace(s[0]) then
      var n := Lead(s[1..]);
      assert forall i :: 1 <= i <= n ==> s[i] == s[1..][i - 1];
      n + 1
    else
      0
  }

  /** How many white-space characters `s` ends with. */
  function Trail(s: string): (n: nat)
    ensures n <= |s|
    ensures forall i :: |s| - n <= i < |s| ==> IsSpace(s[i])
    ensures n == |s| || !IsSpace(s[|s| - n - 1])
  {
    if s != [] && IsSpace(s[|s| - 1]) then
      var n := Trail(s[..|s| - 1]);
      assert forall i :: 0 <= i < |s| - 1 ==> s[i] == s[..|s| - 1][i];
      n + 1
    else
      0
  }

  /**
   * `trim`: the stretch of the input after its leading white space, with no white space
   * at either end; it is empty exactly when the input is all white space, and all that
   * follows it is white space.
   */
  function Trim(s: string): (r: string)
    ensures r == [] <==> forall i :: 0 <= i < |s| ==> IsSpace(s[i])
    ensures Lead(s) + |r| <= |s| && r == s[Lead(s)..Lead(s) + |r|]
    ensures forall i :: Lead(s) + |r| <= i < |s| ==> IsSpace(s[i])
    ensures r == [] || (!IsSpace(r[0]) && !IsSpace(r[|r| - 1]))
  {
    var a := Lead(s);
    if a == |s| then
      ""
    else
      var b := |s| - Trail(s);
      assert !IsSpace(s[a]);
      s[a..b]
  }

  /** Text with no white space at its ends is left alone. */
  lemma TrimKeeps(s: string)
    requires s == [] || (!IsSpace(s[0]) && !IsSpace(s[|s| - 1]))
    ensures Trim(s) == s
  {
  }

  /** Trimming twice is trimming once. */
  lemma TrimIdempotent(s: string)
    ensures Trim(Trim(s)) == Trim(s)
  {
    TrimKeeps(Trim(s));
  }

  // ---------------------------------------------------------------- the description

  /**
   * Lines 41-42 and the `trim` of line 43, on the README's lines: the line after the
   * `## Overview` line, or the empty text when that index is past the end.
   */
  function DescriptionOf(lines: seq<string>): (d: string)
    ensures d == [] || (!IsSpace(d[0]) && !IsSpace(d[|d| - 1]))
    ensures (forall i :: 0 <= i < |lines| ==> '\n' !in lines[i]) ==> '\n' !in d
  {
    var k := IndexOf(lines, Find(lines)) + 1;
    var line := if k < |lines| then lines[k] else "";
    var d := Trim(line);
    assert forall j :: 0 <= j < |d| ==> d[j] == line[Lead(line) + j];
    d
  }

  /** The description of a README's text: one line, with no white space at its ends. */
  function Description(readme: string): (d: string)
    ensures '\n' !in d
    ensures d == [] || (!IsSpace(d[0]) && !IsSpace(d[|d| - 1]))
  {
    var lines := Split(readme, '\n');
    assert forall i :: 0 <= i < |lines| ==> '\n' !in lines[i];
    DescriptionOf(lines)
  }

  /** With a heading line: the next line, trimmed, or nothing after a last-line heading. */
  lemma DescriptionAfterHeading(lines: seq<string>, i: nat)
    requires i < |lines| && StartsWith(lines[i], Heading)
    requires forall j :: 0 <= j < i ==> !StartsWith(lines[j], Heading)
    ensures DescriptionOf(lines) == if i + 1 < |lines| then Trim(lines[i + 1]) else ""
  {
    IndexOfFind(lines);
    var k := IndexOf(lines, Find(lines));
    assert k == i;
  }

  /**
   * A README without a heading line: `indexOf(undefined)` is -1, so the description is
   * the README's own first line, up to the first line break, trimmed.
   */
  lemma DescriptionWithoutHeading(readme: string)
    requires forall i :: 0 <= i < |Split(readme, '\n')| ==> !StartsWith(Split(readme, '\n')[i], Heading)
    ensures var first := Split(readme, '\n')[0];
            && Description(readme) == Trim(first)
            && first == readme[..|first|]
            && (|first| == |readme| || readme[|first|] == '\n')
  {
    IndexOfFind(Split(readme, '\n'));
    SplitFirst(readme, '\n');
  }

  /** What is printed after the recipe name: the README's description, or the fixed fallback. */
  function RecipeDescription(readme: Option<string>): (d: string)
    ensures readme.None? ==> d == Fallback
    ensures readme.Some? ==> d == DescriptionOf(Split(readme.value, '\n'))
    ensures readme.Some? ==> d == Trim(d) && '\n' !in d
  {
    match readme
    case None => Fallback
    case Some(text) =>
      DescriptionTrimmed(Split(text, '\n'));
      Description(text)
  }

  /** A description never starts or ends with white space. */
  lemma DescriptionTrimmed(lines: seq<string>)
    ensures Trim(DescriptionOf(lines)) == DescriptionOf(lines)
  {
    var k := IndexOf(lines, Find(lines)) + 1;
    TrimIdempotent(if k < |lines| then lines[k] else "");
  }

  /** A README whose overview is followed by an indented line. */
  lemma OverviewExample()
    ensures DescriptionOf(["# Go", "## Overview", "  Go toolchain  ", ""]) == "Go toolchain"
  {
    var lines := ["# Go", "## Overview", "  Go toolchain  ", ""];
    assert !StartsWith(lines[0], Heading);
    assert StartsWith(lines[1], Heading);
    DescriptionAfterHeading(lines, 1);
    TrimExample();
  }

  /** Spaces on both sides are cut; the one inside stays. */
  lemma TrimExample()
    ensures Trim("  Go toolchain  ") == "Go toolchain"
  {
    var s := "  Go toolchain  ";
    assert IsSpace(s[0]) && IsSpace(s[1]) && !IsSpace(s[2]);
    assert Lead(s) == 2;
    assert IsSpace(s[15]) && IsSpace(s[14]) && !IsSpace(s[13]);
    var r := Trim(s);
    assert |r| == 12;
    assert r == s[2..14];
  }

  /** A README without an overview heading: its first line is shown. */
  lemma NoHeadingExample()
    ensures DescriptionOf(["# Python", "Tools"]) == "# Python"
  {
    var lines := ["# Python", "Tools"];
    assert !StartsWith(lines[0], Heading) && !StartsWith(lines[1], Heading);
    IndexOfFind(lines);
    TrimKeeps(lines[0]);
  }
}
