/** Fence-aware Markdown (infra/generate_furnished_page.py): the scanner that finds headings and fenced
    blocks, and the clean-up that leaves every fenced block alone (CommonMark 0.31, sections 4.2, 4.3 and
    4.5). The plain text of a heading line is a parameter. */
module Markdown {
  import opened Options
  import opened PyText

  predicate IsTick(c: char) { c == '`' }

  predicate IsTilde(c: char) { c == '~' }

  predicate IsEquals(c: char) { c == '=' }

  predicate IsHash(c: char) { c == '#' }

  // ----- the line patterns -----

  datatype Opener = Opener(indent: nat, fence: string, info: string)

  function FenceChar(c: char): Option<char -> bool> {
    if c == '`' then Some(IsTick) else if c == '~' then Some(IsTilde) else None
  }

  /** `^[ \t]*(`{3,}|~{3,})(.*)$`; the info string of a backtick fence holds no backtick. */
  function FenceOpener(line: string): (o: Option<Opener>)
    ensures o.Some? ==> |o.value.fence| >= 3 && o.value.indent < |line| && o.value.fence[0] == line[o.value.indent]
  {
    var indent := RunLength(line, IsBlank);
    var rest := line[indent..];
    if rest == "" || FenceChar(rest[0]) == None then None
    else
      var n := RunLength(rest, FenceChar(rest[0]).value);
      if n < 3 || (rest[0] == '`' && '`' in rest[n..]) then None
      else Some(Opener(indent, rest[..n], rest[n..]))
  }

  predicate ClosesFence(line: string, marker: string)
    requires marker != ""
  {
    var s := Strip(line, IsSpace);
    |s| >= |marker| && s != "" && forall c :: c in s ==> c == marker[0]
  }

  /** A table separator or rule line: bars, colons, dashes and blanks, with a dash. */
  predicate IsRule(line: string) {
    var s := Strip(line, IsSpace);
    '-' in s && forall c :: c in s ==> c == '|' || c == ':' || c == '-' || IsSpace(c)
  }

  /** `^ {0,3}=+[ \t]*$` */
  predicate IsUnderline(line: string) {
    var n := RunLength(line, IsSpaceChar);
    var m := RunLength(line[n..], IsEquals);
    n <= 3 && m > 0 && RunLength(line[n + m..], IsBlank) == |line| - n - m
  }

  /** `^ {0,3}(#{1,6})[ \t]+(.+?)(?:[ \t]+#+)?[ \t]*$`: the level, or 0. */
  function AtxLevel(line: string): nat {
    var n := RunLength(line, IsSpaceChar);
    var h := RunLength(line[n..], IsHash);
    if n <= 3 && 1 <= h <= 6 && n + h + 1 < |line| && IsBlank(line[n + h]) then h else 0
  }

  predicate CanBeSetext(line: string) {
    var i := FirstKept(line, IsSpace, 0);
    i < |line| && line[i] !in {'#', '|', '>', '<', '-', '*', '+'}
  }

  // ----- fences -----

  datatype Fence = Fence(start: nat, end: nat, info: string, code: seq<string>)

  /** The first line from the cursor on that closes the fence, or the end. */
  function FirstClose(lines: seq<string>, cursor: nat, marker: string): (c: nat)
    requires cursor <= |lines| && marker != ""
    ensures cursor <= c <= |lines|
    decreases |lines| - cursor
  {
    if cursor < |lines| && !ClosesFence(lines[cursor], marker) then FirstClose(lines, cursor + 1, marker) else cursor
  }

  /** The fence that opens at line i: it runs to its closing line, or to the last line. */
  function FenceAt(lines: seq<string>, i: nat): (f: Fence)
    requires i < |lines| && FenceOpener(lines[i]).Some?
    ensures f.start == i <= f.end < |lines|
  {
    var o := FenceOpener(lines[i]).value;
    var close := FirstClose(lines, i + 1, o.fence);
    Fence(i, if close < |lines| then close else |lines| - 1, Strip(o.info, IsSpace), DedentAll(lines[i + 1..close], o.indent))
  }

  /** Up to `indent` leading blanks removed from each line. */
  function DedentAll(lines: seq<string>, indent: nat): seq<string> {
    if lines == [] then []
    else [Dedented(lines[0], indent)] + DedentAll(lines[1..], indent)
  }

  /** What is left of a line of code: blanks are gone from its start, as many as the opener is indented by, or all
      there are if there are fewer. */
  predicate IsDedented(line: string, indent: nat, code: string) {
    exists n: nat :: n <= indent && n <= |line| && code == line[n..]
      && (forall k :: 0 <= k < n ==> IsBlank(line[k])) && (n == indent || n == |line| || !IsBlank(line[n]))
  }

  function Dedented(line: string, indent: nat): string {
    var n := RunLength(line, IsBlank);
    line[if n < indent then n else indent..]
  }

  lemma OneLineDedented(line: string, indent: nat)
    ensures IsDedented(line, indent, Dedented(line, indent))
  {
    var m := RunLength(line, IsBlank);
    var n: nat := if m < indent then m else indent;
    assert n <= |line| && Dedented(line, indent) == line[n..];
  }

  lemma {:induction false} DedentedIs(lines: seq<string>, indent: nat, k: nat)
    requires k < |lines|
    ensures |DedentAll(lines, indent)| == |lines| && IsDedented(lines[k], indent, DedentAll(lines, indent)[k])
  {
    hide IsDedented, Dedented;
    var rest := DedentAll(lines[1..], indent);
    assert DedentAll(lines, indent) == [Dedented(lines[0], indent)] + rest;
    if k > 0 {
      DedentedIs(lines[1..], indent, k - 1);
      assert lines[k] == lines[1..][k - 1];
    } else {
      OneLineDedented(lines[0], indent);
      if lines[1..] != [] { DedentedIs(lines[1..], indent, 0); }
    }
  }

  /** A fence holds its lines up to the closing one, or to the end, each without the opener's indentation. */
  lemma FenceHoldsItsLines(lines: seq<string>, i: nat, k: nat)
    requires i < |lines| && FenceOpener(lines[i]).Some?
    ensures var f, o := FenceAt(lines, i), FenceOpener(lines[i]).value;
            var closed := i < f.end && ClosesFence(lines[f.end], o.fence);
            && f.start == i && f.info == Strip(o.info, IsSpace)
            && |f.code| == f.end - i - (if closed then 1 else 0) && (!closed ==> f.end == |lines| - 1)
            && (i < k < f.end ==> !ClosesFence(lines[k], o.fence))
            && (i < k <= i + |f.code| ==> IsDedented(lines[k], o.indent, f.code[k - i - 1]))
  {
    hide ClosesFence, FenceOpener, IsDedented;
    var o := FenceOpener(lines[i]).value;
    var close := FirstClose(lines, i + 1, o.fence);
    FirstCloseIs(lines, i + 1, o.fence);
    var body := lines[i + 1..close];
    if body != [] { DedentedIs(body, o.indent, 0); }
    if i < k < close { DedentedIs(body, o.indent, k - i - 1); }
  }

  lemma {:induction false} FirstCloseIs(lines: seq<string>, cursor: nat, marker: string)
    requires cursor <= |lines| && marker != ""
    ensures var c := FirstClose(lines, cursor, marker);
            && (c < |lines| ==> ClosesFence(lines[c], marker))
            && forall k :: cursor <= k < c ==> !ClosesFence(lines[k], marker)
    decreases |lines| - cursor
  {
    hide ClosesFence;
    if cursor < |lines| && !ClosesFence(lines[cursor], marker) { FirstCloseIs(lines, cursor + 1, marker); }
  }

  function Fences(lines: seq<string>, i: nat): seq<Fence>
    decreases |lines| - i
  {
    if i >= |lines| then []
    else if FenceOpener(lines[i]).Some? then
      var f := FenceAt(lines, i);
      [f] + Fences(lines, f.end + 1)
    else Fences(lines, i + 1)
  }

  // ----- headings -----

  datatype Heading = Heading(line: nat, level: nat, text: string)

  /** The plain text of an ATX heading line and of a setext heading line. */
  datatype Texts = Texts(atx: string -> string, plain: string -> string)

  function Titled(t: string, h: Heading): seq<Heading> { if t != "" then [h] else [] }

  predicate SetextAt(lines: seq<string>, i: nat)
    requires i < |lines|
  {
    CanBeSetext(lines[i]) && i + 1 < |lines| && IsUnderline(lines[i + 1])
  }

  function Headings(x: Texts, lines: seq<string>, i: nat): seq<Heading>
    decreases |lines| - i
  {
    if i >= |lines| then []
    else if FenceOpener(lines[i]).Some? then Headings(x, lines, FenceAt(lines, i).end + 1)
    else if AtxLevel(lines[i]) > 0 then
      Titled(x.atx(lines[i]), Heading(i, AtxLevel(lines[i]), x.atx(lines[i]))) + Headings(x, lines, i + 1)
    else if SetextAt(lines, i) then
      Titled(x.plain(lines[i]), Heading(i, 1, x.plain(lines[i]))) + Headings(x, lines, i + 2)
    else Headings(x, lines, i + 1)
  }

  /** A setext underline never opens a fence, so skipping it skips no fence. */
  lemma UnderlineOpensNothing(line: string)
    requires IsUnderline(line)
    ensures FenceOpener(line) == None
  {
    var n := RunLength(line, IsSpaceChar);
    var k := RunLength(line, IsBlank);
    var m := RunLength(line[n..], IsEquals);
    assert line[n] == line[n..][0] == '=';
    assert k == n;
  }

  /** _scan_markdown */
  method ScanMarkdown(x: Texts, lines: seq<string>) returns (headings: seq<Heading>, fences: seq<Fence>)
    ensures fences == Fences(lines, 0)
    ensures headings == Headings(x, lines, 0)
  {
    hide AtxLevel, CanBeSetext, IsUnderline, FenceOpener, FenceAt, Titled;
    headings, fences := [], [];
    var index := 0;
    while index < |lines|
      invariant fences + Fences(lines, index) == Fences(lines, 0)
      invariant headings + Headings(x, lines, index) == Headings(x, lines, 0)
      decreases |lines| - index
    {
      var opener := FenceOpener(lines[index]);
      if opener.Some? {
        var fence := ReadFence(lines, index, opener.value);
        Assoc(fences, [fence], Fences(lines, fence.end + 1));
        fences := fences + [fence];
        index := fence.end + 1;
      } else {
        var found, next := ReadHeading(x, lines, index);
        Assoc(headings, found, Headings(x, lines, next));
        headings := headings + found;
        index := next;
      }
    }
  }

  /** The branch of the loop outside fences: the heading found, if any, and the next line to look at. */
  method ReadHeading(x: Texts, lines: seq<string>, index: nat) returns (found: seq<Heading>, next: nat)
    requires index < |lines| && FenceOpener(lines[index]) == None
    ensures index < next && Headings(x, lines, index) == found + Headings(x, lines, next)
    ensures Fences(lines, index) == Fences(lines, next)
  {
    hide AtxLevel, CanBeSetext, IsUnderline, FenceOpener, FenceAt;
    found, next := [], index + 1;
    var line := lines[index];
    var level := AtxLevel(line);
    if level > 0 {
      var text := x.atx(line);
      if text != "" { found := [Heading(index, level, text)]; }
    } else if CanBeSetext(line) && index + 1 < |lines| && IsUnderline(lines[index + 1]) {
      var text := x.plain(line);
      if text != "" { found := [Heading(index, 1, text)]; }
      UnderlineOpensNothing(lines[index + 1]);
      next := index + 2;
    }
    assert found + Headings(x, lines, next) == Headings(x, lines, index);
  }

  /** The inner loop: collect the body up to the closing line. */
  method ReadFence(lines: seq<string>, index: nat, opener: Opener) returns (fence: Fence)
    requires index < |lines| && FenceOpener(lines[index]) == Some(opener)
    ensures fence == FenceAt(lines, index)
  {
    hide ClosesFence;
    var body: seq<string> := [];
    var cursor := index + 1;
    while cursor < |lines| && !ClosesFence(lines[cursor], opener.fence)
      invariant index < cursor <= |lines|
      invariant body == lines[index + 1..cursor]
      invariant FirstClose(lines, cursor, opener.fence) == FirstClose(lines, index + 1, opener.fence)
    {
      body := body + [lines[cursor]];
      cursor := cursor + 1;
    }
    var end := if cursor < |lines| - 1 then cursor else |lines| - 1;
    fence := Fence(index, end, Strip(opener.info, IsSpace), DedentAll(body, opener.indent));
  }

  // ----- what the scanner guarantees -----

  /** Inside lo..hi, one after the other, and no two share a line. */
  ghost predicate Ascending(fs: seq<Fence>, lo: nat, hi: nat) {
    && (forall k :: 0 <= k < |fs| ==> lo <= fs[k].start <= fs[k].end < hi)
    && (forall k, m :: 0 <= k < m < |fs| ==> fs[k].end < fs[m].start)
  }

  lemma ConsAscends(f: Fence, rest: seq<Fence>, lo: nat, hi: nat)
    requires lo <= f.start <= f.end < hi && Ascending(rest, f.end + 1, hi)
    ensures Ascending([f] + rest, lo, hi)
  {
    var fs := [f] + rest;
    assert forall k :: 1 <= k < |fs| ==> fs[k] == rest[k - 1];
  }

  lemma {:induction false} FencesAscend(lines: seq<string>, i: nat)
    ensures Ascending(Fences(lines, i), i, |lines|)
    decreases |lines| - i
  {
    hide FenceOpener, FenceAt;
    if i < |lines| {
      if FenceOpener(lines[i]).Some? {
        var f := FenceAt(lines, i);
        FencesAscend(lines, f.end + 1);
        ConsAscends(f, Fences(lines, f.end + 1), i, |lines|);
      } else {
        FencesAscend(lines, i + 1);
      }
    }
  }

  ghost predicate Outside(line: nat, fences: seq<Fence>) {
    forall f :: f in fences ==> !(f.start <= line <= f.end)
  }

  /** Inside lo..hi, on strictly increasing lines, none of them in a fence. */
  ghost predicate Placed(hs: seq<Heading>, fences: seq<Fence>, lo: nat, hi: nat) {
    && (forall k :: 0 <= k < |hs| ==> lo <= hs[k].line < hi && Outside(hs[k].line, fences))
    && (forall k, m :: 0 <= k < m < |hs| ==> hs[k].line < hs[m].line)
  }

  lemma ConsPlaced(h: Heading, rest: seq<Heading>, fences: seq<Fence>, lo: nat, next: nat, hi: nat)
    requires lo <= h.line < next && h.line < hi && Outside(h.line, fences) && Placed(rest, fences, next, hi)
    ensures Placed([h] + rest, fences, lo, hi)
  {
    var hs := [h] + rest;
    assert forall k :: 1 <= k < |hs| ==> hs[k] == rest[k - 1];
  }

  lemma FenceKeepsPlaces(f: Fence, rest: seq<Fence>, hs: seq<Heading>, lo: nat, hi: nat)
    requires Placed(hs, rest, f.end + 1, hi) && lo <= f.end + 1
    ensures Placed(hs, [f] + rest, lo, hi)
  {
  }

  lemma LineIsOutside(fences: seq<Fence>, line: nat, lo: nat, hi: nat)
    requires Ascending(fences, lo, hi) && line < lo
    ensures Outside(line, fences)
  {
  }

  /** The headings found from line i on. */
  lemma {:induction false} HeadingsArePlaced(x: Texts, lines: seq<string>, i: nat)
    ensures Placed(Headings(x, lines, i), Fences(lines, i), i, |lines|)
    decreases |lines| - i
  {
    hide FenceOpener, FenceAt, AtxLevel, SetextAt, Placed, Ascending, Outside;
    if i >= |lines| {
      NoHeadingsArePlaced(Fences(lines, i), i, |lines|);
    } else if FenceOpener(lines[i]).Some? {
      var f := FenceAt(lines, i);
      HeadingsArePlaced(x, lines, f.end + 1);
      FenceKeepsPlaces(f, Fences(lines, f.end + 1), Headings(x, lines, f.end + 1), i, |lines|);
    } else {
      var next := if AtxLevel(lines[i]) == 0 && SetextAt(lines, i) then i + 2 else i + 1;
      SetextSkipsNoFence(lines, i);
      HeadingsArePlaced(x, lines, next);
      FencesAscend(lines, next);
      LineIsOutside(Fences(lines, next), i, next, |lines|);
      PlacedBelow(Headings(x, lines, next), Fences(lines, next), next, i, |lines|);
      if AtxLevel(lines[i]) > 0 {
        TitledIsPlaced(x.atx(lines[i]), Heading(i, AtxLevel(lines[i]), x.atx(lines[i])), Headings(x, lines, next),
                       Fences(lines, next), next, |lines|);
      } else if SetextAt(lines, i) {
        TitledIsPlaced(x.plain(lines[i]), Heading(i, 1, x.plain(lines[i])), Headings(x, lines, next),
                       Fences(lines, next), next, |lines|);
      }
    }
  }

  lemma SetextSkipsNoFence(lines: seq<string>, i: nat)
    requires i < |lines| && FenceOpener(lines[i]) == None
    ensures Fences(lines, i) == Fences(lines, i + 1)
    ensures SetextAt(lines, i) ==> Fences(lines, i) == Fences(lines, i + 2)
  {
    hide FenceOpener, IsUnderline, CanBeSetext;
    if SetextAt(lines, i) { UnderlineOpensNothing(lines[i + 1]); }
  }

  lemma NoHeadingsArePlaced(fences: seq<Fence>, lo: nat, hi: nat)
    ensures Placed([], fences, lo, hi)
  {
  }

  lemma PlacedBelow(hs: seq<Heading>, fences: seq<Fence>, lo: nat, lower: nat, hi: nat)
    requires Placed(hs, fences, lo, hi) && lower <= lo
    ensures Placed(hs, fences, lower, hi)
  {
  }

  lemma TitledIsPlaced(text: string, h: Heading, rest: seq<Heading>, fences: seq<Fence>, next: nat, hi: nat)
    requires h.line < next && h.line < hi && Outside(h.line, fences) && Placed(rest, fences, next, hi)
    ensures Placed(Titled(text, h) + rest, fences, h.line, hi)
  {
    hide Placed, Outside;
    if text == "" {
      assert Titled(text, h) + rest == rest;
      PlacedBelow(rest, fences, next, h.line, hi);
    } else {
      ConsPlaced(h, rest, fences, h.line, next, hi);
    }
  }

  // ----- the clean-up -----

  /** The lines kept, starting inside a fence with this marker or, when it is empty, outside. */
  function Kept(lines: seq<string>, marker: string): seq<string> {
    if lines == [] then []
    else
      var line, rest := lines[0], lines[1..];
      if marker != "" then [line] + Kept(rest, if ClosesFence(line, marker) then "" else marker)
      else
        match FenceOpener(line)
        case Some(o) => [line] + Kept(rest, o.fence)
        case None => if IsRule(line) then Kept(rest, "") else [RStrip(line, IsSpace)] + Kept(rest, "")
  }

  function Neutralise(text: string): string {
    Strip(Join("\n", Kept(Lines(text), "")), IsLineFeed)
  }

  /** The marker in force after the lines. */
  function MarkerAfter(lines: seq<string>, marker: string): string {
    if lines == [] then marker
    else
      var line, rest := lines[0], lines[1..];
      if marker != "" then MarkerAfter(rest, if ClosesFence(line, marker) then "" else marker)
      else MarkerAfter(rest, if FenceOpener(line).Some? then FenceOpener(line).value.fence else "")
  }

  lemma {:induction false} KeptAppend(a: seq<string>, b: seq<string>, marker: string)
    ensures Kept(a + b, marker) == Kept(a, marker) + Kept(b, MarkerAfter(a, marker))
    decreases |a|
  {
    hide FenceOpener, ClosesFence, IsRule, RStrip;
    if a == [] {
      assert a + b == b;
    } else {
      var line, rest := a[0], a[1..];
      assert (a + b)[0] == line && (a + b)[1..] == rest + b;
      var next :=
        if marker != "" then (if ClosesFence(line, marker) then "" else marker)
        else if FenceOpener(line).Some? then FenceOpener(line).value.fence else "";
      KeptAppend(rest, b, next);
    }
  }

  lemma {:induction false} MarkerAppend(a: seq<string>, b: seq<string>, marker: string)
    ensures MarkerAfter(a + b, marker) == MarkerAfter(b, MarkerAfter(a, marker))
    decreases |a|
  {
    hide FenceOpener, ClosesFence;
    if a == [] {
      assert a + b == b;
    } else {
      var line, rest := a[0], a[1..];
      assert (a + b)[0] == line && (a + b)[1..] == rest + b;
      var next :=
        if marker != "" then (if ClosesFence(line, marker) then "" else marker)
        else if FenceOpener(line).Some? then FenceOpener(line).value.fence else "";
      MarkerAppend(rest, b, next);
    }
  }

  /** _neutralise_markdown */
  method NeutraliseMarkdown(text: string) returns (clean: string)
    ensures clean == Neutralise(text)
  {
    hide FenceOpener, ClosesFence, IsRule, RStrip, Strip;
    var kept: seq<string> := [];
    var marker := "";
    var lines := Lines(text);
    for i := 0 to |lines|
      invariant kept == Kept(lines[..i], "") && marker == MarkerAfter(lines[..i], "")
    {
      var line := lines[i];
      assert lines[..i + 1] == lines[..i] + [line];
      KeptAppend(lines[..i], [line], "");
      MarkerAppend(lines[..i], [line], "");
      assert [line][1..] == [];
      if marker != "" {
        kept := kept + [line];
        if ClosesFence(line, marker) { marker := ""; }
      } else {
        var opener := FenceOpener(line);
        if opener.Some? {
          marker := opener.value.fence;
          kept := kept + [line];
        } else if !IsRule(line) {
          kept := kept + [RStrip(line, IsSpace)];
        }
      }
    }
    assert lines[..|lines|] == lines;
    clean := Strip(Join("\n", kept), IsLineFeed);
  }

  // ----- every fence is kept, verbatim and in order -----

  /** How many of the lines after an opener belong to its fence: up to and with the closing line. */
  function BodyLength(lines: seq<string>, marker: string): (n: nat)
    requires marker != ""
    ensures n <= |lines|
  {
    if lines == [] then 0
    else if ClosesFence(lines[0], marker) then 1
    else 1 + BodyLength(lines[1..], marker)
  }

  /** The lines of each fence, opener to closer. */
  function FenceBlocks(lines: seq<string>): seq<seq<string>>
    decreases |lines|
  {
    if lines == [] then []
    else if FenceOpener(lines[0]).Some? then
      var n := 1 + BodyLength(lines[1..], FenceOpener(lines[0]).value.fence);
      [lines[..n]] + FenceBlocks(lines[n..])
    else FenceBlocks(lines[1..])
  }

  function Slice(lines: seq<string>, f: Fence): seq<string> {
    if f.start <= f.end < |lines| then lines[f.start..f.end + 1] else []
  }

  function Slices(lines: seq<string>, fs: seq<Fence>): seq<seq<string>> {
    if fs == [] then [] else [Slice(lines, fs[0])] + Slices(lines, fs[1..])
  }

  lemma {:induction false} CloseIsBodyLength(lines: seq<string>, cursor: nat, marker: string)
    requires cursor <= |lines| && marker != ""
    ensures var c := FirstClose(lines, cursor, marker);
            cursor + BodyLength(lines[cursor..], marker) == if c < |lines| then c + 1 else |lines|
    decreases |lines| - cursor
  {
    hide ClosesFence;
    if cursor < |lines| {
      assert lines[cursor..][1..] == lines[cursor + 1..];
      if !ClosesFence(lines[cursor], marker) { CloseIsBodyLength(lines, cursor + 1, marker); }
    }
  }

  lemma TailSlices(lines: seq<string>, i: nat, n: nat)
    requires i < |lines| && n <= |lines| - i
    ensures lines[i..][0] == lines[i] && lines[i..][1..] == lines[i + 1..]
    ensures lines[i..][..n] == lines[i..i + n] && lines[i..][n..] == lines[i + n..]
  {
  }

  lemma AscendingInRange(fs: seq<Fence>, lo: nat, hi: nat)
    requires Ascending(fs, lo, hi)
    ensures forall f :: f in fs ==> f.start <= f.end < hi
  {
  }

  lemma FirstBlock(lines: seq<string>, i: nat)
    requires i < |lines| && FenceOpener(lines[i]).Some?
    ensures var end := FenceAt(lines, i).end;
            FenceBlocks(lines[i..]) == [lines[i..end + 1]] + FenceBlocks(lines[end + 1..])
  {
    hide FenceOpener, ClosesFence, BodyLength;
    var marker := FenceOpener(lines[i]).value.fence;
    CloseIsBodyLength(lines, i + 1, marker);
    var n := 1 + BodyLength(lines[i + 1..], marker);
    assert i + n == FenceAt(lines, i).end + 1;
    TailSlices(lines, i, n);
  }

  lemma SlicesOfCons(lines: seq<string>, f: Fence, rest: seq<Fence>)
    ensures Slices(lines, [f] + rest) == [Slice(lines, f)] + Slices(lines, rest)
  {
    assert ([f] + rest)[1..] == rest;
  }

  /** The scanner's line ranges and the clean-up's fences are the same. */
  lemma {:induction false} BlocksAreScannedFences(lines: seq<string>, i: nat)
    requires i <= |lines|
    ensures forall f :: f in Fences(lines, i) ==> f.start <= f.end < |lines|
    ensures FenceBlocks(lines[i..]) == Slices(lines, Fences(lines, i))
    decreases |lines| - i
  {
    hide FenceOpener, FenceAt, Ascending, FenceBlocks, Slices;
    FencesAscend(lines, i);
    AscendingInRange(Fences(lines, i), i, |lines|);
    if i == |lines| {
      NoBlocks(lines[i..], lines);
    } else if FenceOpener(lines[i]).Some? {
      var f := FenceAt(lines, i);
      FirstBlock(lines, i);
      BlocksAreScannedFences(lines, f.end + 1);
      SlicesOfCons(lines, f, Fences(lines, f.end + 1));
    } else {
      SkipLine(lines, i);
      BlocksAreScannedFences(lines, i + 1);
    }
  }

  lemma NoBlocks(none: seq<string>, lines: seq<string>)
    requires none == []
    ensures FenceBlocks(none) == Slices(lines, [])
  {
  }

  lemma SkipLine(lines: seq<string>, i: nat)
    requires i < |lines| && FenceOpener(lines[i]) == None
    ensures FenceBlocks(lines[i..]) == FenceBlocks(lines[i + 1..])
  {
    hide FenceOpener;
    TailSlices(lines, i, 1);
  }

  /** Inside a fence nothing changes up to its closing line. */
  lemma {:induction false} KeptInside(lines: seq<string>, marker: string)
    requires marker != ""
    ensures var k := BodyLength(lines, marker);
            Kept(lines, marker) == lines[..k] + Kept(lines[k..], "")
  {
    hide ClosesFence, Kept, BodyLength;
    if lines == [] {
      NothingInside(marker);
    } else {
      var line, rest := lines[0], lines[1..];
      assert lines == [line] + rest;
      BodyOfCons(line, rest, marker);
      KeptHead(line, rest, marker);
      if ClosesFence(line, marker) {
        HeadSlices(line, rest, 0);
        Assoc([line], [], Kept(rest, ""));
        assert rest[..0] == [] && rest[0..] == rest;
      } else {
        var k := BodyLength(rest, marker);
        KeptInside(rest, marker);
        HeadSlices(line, rest, k);
        Assoc([line], rest[..k], Kept(rest[k..], ""));
      }
    }
  }

  lemma NothingInside(marker: string)
    requires marker != ""
    ensures BodyLength([], marker) == 0 && Kept([], marker) == [] && Kept([], "") == []
  {
  }

  lemma BodyOfCons(line: string, rest: seq<string>, marker: string)
    requires marker != ""
    ensures BodyLength([line] + rest, marker) == if ClosesFence(line, marker) then 1 else 1 + BodyLength(rest, marker)
  {
    hide ClosesFence;
    assert ([line] + rest)[1..] == rest;
  }

  /** and the fence is as long as it was. */
  lemma {:induction false} KeptBodyLength(lines: seq<string>, marker: string)
    requires marker != ""
    ensures BodyLength(Kept(lines, marker), marker) == BodyLength(lines, marker)
  {
    hide ClosesFence, Kept, BodyLength;
    if lines == [] {
      NothingInside(marker);
    } else {
      var line, rest := lines[0], lines[1..];
      assert lines == [line] + rest;
      BodyOfCons(line, rest, marker);
      KeptHead(line, rest, marker);
      var next := if ClosesFence(line, marker) then "" else marker;
      BodyOfCons(line, Kept(rest, next), marker);
      if next != "" { KeptBodyLength(rest, marker); }
    }
  }

  lemma KeptHead(line: string, rest: seq<string>, marker: string)
    requires marker != ""
    ensures var kept := Kept([line] + rest, marker);
            kept == [line] + Kept(rest, if ClosesFence(line, marker) then "" else marker)
  {
    hide ClosesFence;
    assert ([line] + rest)[1..] == rest;
  }

  lemma HeadSlices(line: string, rest: seq<string>, k: nat)
    requires k <= |rest|
    ensures ([line] + rest)[..k + 1] == [line] + rest[..k] && ([line] + rest)[k + 1..] == rest[k..]
  {
  }

  lemma RunLengthIs(s: string, test: char -> bool, n: nat)
    requires n <= |s| && (n < |s| ==> !test(s[n])) && forall i :: 0 <= i < n ==> test(s[i])
    ensures RunLength(s, test) == n
  {
  }

  lemma TrimmedRun(s: string, j: nat, test: char -> bool, d: nat)
    requires d <= j <= |s| && (forall k :: j <= k < |s| ==> !test(s[k]))
    ensures RunLength(s[d..], test) == RunLength(s[d..j], test)
  {
    var n := RunLength(s[d..j], test);
    assert forall i :: 0 <= i < j - d ==> s[d..][i] == s[d..j][i];
    RunLengthIs(s[d..], test, n);
  }

  lemma SpaceIsNoFence(c: char)
    requires IsSpace(c)
    ensures c != '`' && c != '~'
  {
  }

  /** A line that opens a fence once its end is trimmed opens one as it is. */
  lemma TrimmingOpensNothing(line: string)
    ensures FenceOpener(RStrip(line, IsSpace)).Some? ==> FenceOpener(line).Some?
  {
    hide IsSpace, RStrip;
    var j := LastKept(line, IsSpace, 0, |line|);
    assert RStrip(line, IsSpace) == line[..j] by { RStripIs(line, IsSpace, j); }
    forall k | j <= k < |line| ensures line[k] != '`' && line[k] != '~' { SpaceIsNoFence(line[k]); }
    PrefixOpens(line, j);
  }

  /** d blanks, then n of one fence character, at least three. */
  predicate Opens(line: string, d: nat, n: nat) {
    && d < |line| && RunLength(line, IsBlank) == d && FenceChar(line[d]).Some?
    && RunLength(line[d..], FenceChar(line[d]).value) == n >= 3
    && !(line[d] == '`' && '`' in line[d..][n..])
  }

  lemma OpenerOpens(line: string)
    ensures FenceOpener(line).Some? <==>
              var d := RunLength(line, IsBlank);
              d < |line| && FenceChar(line[d]).Some? && Opens(line, d, RunLength(line[d..], FenceChar(line[d]).value))
  {
  }

  lemma PrefixOpens(line: string, j: nat)
    requires j <= |line| && forall k :: j <= k < |line| ==> line[k] != '`' && line[k] != '~'
    ensures FenceOpener(line[..j]).Some? ==> FenceOpener(line).Some?
  {
    hide FenceOpener, RunLength;
    var t := line[..j];
    OpenerOpens(t);
    if FenceOpener(t).Some? {
      var d := RunLength(t, IsBlank);
      assert t[d] == line[d];
      var test := FenceChar(line[d]).value;
      SameIndent(line, j, d);
      assert t[d..] == line[d..j];
      TrimmedRun(line, j, test, d);
      assert t[d..] == line[d..][..j - d];
      NoNewTick(line[d..], j - d, RunLength(t[d..], test));
      OpenerOpens(line);
    }
  }

  lemma SameIndent(line: string, j: nat, d: nat)
    requires d < j <= |line| && RunLength(line[..j], IsBlank) == d
    ensures RunLength(line, IsBlank) == d
  {
    assert forall i :: 0 <= i <= d ==> line[..j][i] == line[i];
    RunLengthIs(line, IsBlank, d);
  }

  lemma NoNewTick(rest: string, j: nat, n: nat)
    requires n <= j <= |rest| && forall k :: j <= k < |rest| ==> rest[k] != '`'
    ensures '`' in rest[n..] ==> '`' in rest[..j][n..]
  {
    if '`' in rest[n..] {
      var k :| 0 <= k < |rest| - n && rest[n..][k] == '`';
      assert rest[n + k] == '`';
      assert rest[..j][n..][k] == '`';
    }
  }

  lemma TrimmedIsNoRule(line: string)
    ensures IsRule(RStrip(line, IsSpace)) <==> IsRule(line)
    ensures RStrip(RStrip(line, IsSpace), IsSpace) == RStrip(line, IsSpace)
  {
    StripOfRStrip(line, IsSpace);
  }

  lemma KeptOpener(line: string, rest: seq<string>)
    requires FenceOpener(line).Some?
    ensures Kept([line] + rest, "") == [line] + Kept(rest, FenceOpener(line).value.fence)
  {
    hide FenceOpener;
    assert ([line] + rest)[1..] == rest;
  }

  lemma KeptFence(lines: seq<string>)
    requires lines != [] && FenceOpener(lines[0]).Some?
    ensures var n := 1 + BodyLength(lines[1..], FenceOpener(lines[0]).value.fence);
            Kept(lines, "") == lines[..n] + Kept(lines[n..], "")
  {
    hide FenceOpener, Kept;
    var line, rest := lines[0], lines[1..];
    var marker := FenceOpener(line).value.fence;
    var k := BodyLength(rest, marker);
    assert lines == [line] + rest;
    KeptOpener(line, rest);
    KeptInside(rest, marker);
    HeadSlices(line, rest, k);
    Assoc([line], rest[..k], Kept(rest[k..], ""));
  }

  lemma BlocksOfOpener(line: string, rest: seq<string>)
    requires FenceOpener(line).Some?
    ensures var n := 1 + BodyLength(rest, FenceOpener(line).value.fence);
            FenceBlocks([line] + rest) == [([line] + rest)[..n]] + FenceBlocks(([line] + rest)[n..])
  {
    hide FenceOpener, BodyLength;
    assert ([line] + rest)[1..] == rest;
  }

  lemma BlocksOfOther(line: string, rest: seq<string>)
    requires FenceOpener(line) == None
    ensures FenceBlocks([line] + rest) == FenceBlocks(rest)
  {
    hide FenceOpener;
    assert ([line] + rest)[1..] == rest;
  }

  /** The clean-up keeps every fence: verbatim, in order, and no other. */
  lemma {:induction false} KeptKeepsFences(lines: seq<string>)
    ensures FenceBlocks(Kept(lines, "")) == FenceBlocks(lines)
    decreases |lines|
  {
    hide FenceOpener, Kept, FenceBlocks, IsRule, RStrip;
    if lines == [] {
      NothingInside("```");
    } else {
      var line, rest := lines[0], lines[1..];
      assert lines == [line] + rest;
      if FenceOpener(line).Some? {
        var marker := FenceOpener(line).value.fence;
        var n := 1 + BodyLength(rest, marker);
        KeptFence(lines);
        KeptOpener(line, rest);
        KeptBodyLength(rest, marker);
        BlocksOfOpener(line, rest);
        BlocksOfOpener(line, Kept(rest, marker));
        KeptKeepsFences(lines[n..]);
        var kept := Kept(lines, "");
        assert kept[..n] == lines[..n] && kept[n..] == Kept(lines[n..], "");
      } else {
        BlocksOfOther(line, rest);
        KeptOther(line, rest);
        KeptKeepsFences(rest);
        if !IsRule(line) {
          TrimmingOpensNothing(line);
          BlocksOfOther(RStrip(line, IsSpace), Kept(rest, ""));
        }
      }
    }
  }

  lemma KeptOther(line: string, rest: seq<string>)
    requires FenceOpener(line) == None
    ensures Kept([line] + rest, "") == if IsRule(line) then Kept(rest, "") else [RStrip(line, IsSpace)] + Kept(rest, "")
  {
    hide FenceOpener, IsRule, RStrip;
    assert ([line] + rest)[1..] == rest;
  }

  /** Keeping twice keeps the same lines. */
  lemma {:induction false} KeptTwice(lines: seq<string>, marker: string)
    ensures Kept(Kept(lines, marker), marker) == Kept(lines, marker)
    decreases |lines|
  {
    hide FenceOpener, ClosesFence, IsRule, RStrip;
    if lines != [] {
      var line, rest := lines[0], lines[1..];
      var kept := Kept(lines, marker);
      if marker != "" {
        var next := if ClosesFence(line, marker) then "" else marker;
        KeptTwice(rest, next);
        assert kept[0] == line && kept[1..] == Kept(rest, next);
      } else if FenceOpener(line).Some? {
        var next := FenceOpener(line).value.fence;
        KeptTwice(rest, next);
        assert kept[0] == line && kept[1..] == Kept(rest, next);
      } else {
        KeptTwice(rest, "");
        if !IsRule(line) {
          TrimmingOpensNothing(line);
          TrimmedIsNoRule(line);
          assert kept[0] == RStrip(line, IsSpace) && kept[1..] == Kept(rest, "");
        }
      }
    }
  }

  // ----- line breaks at the two ends -----

  function DropEmptyFront(lines: seq<string>): seq<string> {
    if lines != [] && lines[0] == "" then DropEmptyFront(lines[1..]) else lines
  }

  function DropEmptyBack(lines: seq<string>): seq<string> {
    if lines != [] && lines[|lines| - 1] == "" then DropEmptyBack(lines[..|lines| - 1]) else lines
  }

  function TrimEmpty(lines: seq<string>): seq<string> { DropEmptyBack(DropEmptyFront(lines)) }

  ghost predicate FlushEnds(lines: seq<string>) {
    lines != [] ==> lines[0] != "" && lines[|lines| - 1] != ""
  }

  lemma {:induction false} DropEmptyBackKeepsFront(lines: seq<string>)
    requires lines != [] ==> lines[0] != ""
    ensures FlushEnds(DropEmptyBack(lines)) && DropEmptyBack(lines) <= lines
  {
    if lines != [] && lines[|lines| - 1] == "" { DropEmptyBackKeepsFront(lines[..|lines| - 1]); }
  }

  lemma {:induction false} DropEmptyFrontIsSuffix(lines: seq<string>)
    ensures var d := DropEmptyFront(lines);
            (d != [] ==> d[0] != "") && |d| <= |lines| && d == lines[|lines| - |d|..]
  {
    if lines != [] && lines[0] == "" { DropEmptyFrontIsSuffix(lines[1..]); }
  }

  lemma TrimEmptyIsFlush(lines: seq<string>)
    ensures FlushEnds(TrimEmpty(lines)) && forall l :: l in TrimEmpty(lines) ==> l in lines
  {
    DropEmptyFrontIsSuffix(lines);
    DropEmptyBackKeepsFront(DropEmptyFront(lines));
  }

  predicate NoLineFeeds(lines: seq<string>) { forall l :: l in lines ==> '\n' !in l }

  lemma {:induction false} JoinStarts(lines: seq<string>)
    requires lines != [] && lines[0] != ""
    ensures Join("\n", lines) != "" && Join("\n", lines)[0] == lines[0][0]
  {
  }

  lemma {:induction false} JoinEnds(lines: seq<string>)
    requires lines != [] && lines[|lines| - 1] != ""
    ensures var j, last := Join("\n", lines), lines[|lines| - 1]; j != "" && j[|j| - 1] == last[|last| - 1]
  {
    if |lines| > 1 {
      JoinEnds(lines[1..]);
      var rest := Join("\n", lines[1..]);
      var j := lines[0] + "\n" + rest;
      assert j[|j| - 1] == rest[|rest| - 1];
    }
  }

  lemma StripOfFlushJoin(lines: seq<string>)
    requires NoLineFeeds(lines) && FlushEnds(lines)
    ensures Strip(Join("\n", lines), IsLineFeed) == Join("\n", lines)
  {
    if lines != [] {
      var first, last := lines[0], lines[|lines| - 1];
      assert first in lines && last in lines && first[0] in first && last[|last| - 1] in last;
      JoinStarts(lines);
      JoinEnds(lines);
    }
    StripKeeps(Join("\n", lines), IsLineFeed);
  }

  lemma {:induction false} StripDropsBack(lines: seq<string>)
    requires NoLineFeeds(lines) && (lines != [] ==> lines[0] != "")
    ensures Strip(Join("\n", lines), IsLineFeed) == Join("\n", DropEmptyBack(lines))
  {
    hide Strip;
    if lines != [] && lines[|lines| - 1] == "" {
      var init := lines[..|lines| - 1];
      assert lines == init + [""];
      assert init != [];
      JoinAppend("\n", init, [""]);
      assert Join("\n", lines) == Join("\n", init) + ['\n'];
      StripIgnoresLast(Join("\n", init), '\n', IsLineFeed);
      StripDropsBack(init);
    } else {
      StripOfFlushJoin(lines);
    }
  }

  lemma NothingToDrop()
    ensures DropEmptyBack([]) == [] && Join("\n", []) == ""
  {
  }

  /** Stripping line feeds from joined lines drops the empty lines at the two ends. */
  lemma {:induction false} StripOfJoin(lines: seq<string>)
    requires NoLineFeeds(lines)
    ensures Strip(Join("\n", lines), IsLineFeed) == Join("\n", TrimEmpty(lines))
  {
    hide Strip;
    if lines != [] && lines[0] == "" {
      var rest := lines[1..];
      if rest == [] {
        StripOfFlushJoin([]);
        assert DropEmptyFront(lines) == rest;
        NothingToDrop();
        assert Join("\n", lines) == "";
      } else {
        assert lines == [""] + rest;
        JoinAppend("\n", [""], rest);
        assert Join("\n", lines) == ['\n'] + Join("\n", rest);
        StripIgnoresFirst(Join("\n", rest), '\n', IsLineFeed);
        StripOfJoin(rest);
      }
    } else {
      StripDropsBack(lines);
    }
  }

  lemma EmptyLineIsKept(marker: string)
    ensures Kept([""], marker) == [""]
    ensures MarkerAfter([""], marker) == marker
  {
    StripEmpty("", IsSpace);
  }

  lemma {:induction false} KeptWithoutFront(lines: seq<string>)
    requires Kept(lines, "") == lines
    ensures Kept(DropEmptyFront(lines), "") == DropEmptyFront(lines)
    ensures MarkerAfter(DropEmptyFront(lines), "") == MarkerAfter(lines, "")
  {
    hide Kept, MarkerAfter;
    if lines != [] && lines[0] == "" {
      var rest := lines[1..];
      assert lines == [""] + rest;
      EmptyLineIsKept("");
      KeptAppend([""], rest, "");
      MarkerAppend([""], rest, "");
      assert Kept(rest, "") == ([""] + Kept(rest, ""))[1..] == rest;
      KeptWithoutFront(rest);
    }
  }

  lemma {:induction false} KeptWithoutBack(lines: seq<string>)
    requires Kept(lines, "") == lines
    ensures Kept(DropEmptyBack(lines), "") == DropEmptyBack(lines)
    ensures MarkerAfter(DropEmptyBack(lines), "") == MarkerAfter(lines, "")
  {
    hide Kept, MarkerAfter;
    if lines != [] && lines[|lines| - 1] == "" {
      var init := lines[..|lines| - 1];
      assert lines == init + [""];
      var m := MarkerAfter(init, "");
      EmptyLineIsKept(m);
      KeptAppend(init, [""], "");
      MarkerAppend(init, [""], "");
      assert |Kept(init, "")| == |init|;
      assert Kept(init, "") == (Kept(init, "") + [""])[..|init|] == init;
      KeptWithoutBack(init);
    }
  }

  lemma {:induction false} KeptHasNoLineFeeds(lines: seq<string>, marker: string)
    requires NoLineFeeds(lines)
    ensures NoLineFeeds(Kept(lines, marker))
    decreases |lines|
  {
    hide FenceOpener, ClosesFence, IsRule;
    if lines != [] {
      var line, rest := lines[0], lines[1..];
      assert line in lines && forall l :: l in rest ==> l in lines;
      var t := RStrip(line, IsSpace);
      assert forall c :: c in t ==> c in line;
      hide RStrip;
      KeptHasNoLineFeeds(rest, if marker == "" then "" else if ClosesFence(line, marker) then "" else marker);
      if marker == "" && FenceOpener(line).Some? { KeptHasNoLineFeeds(rest, FenceOpener(line).value.fence); }
    }
  }

  /** The lines of the cleaned text. */
  lemma LinesOfNeutralised(text: string)
    ensures var t := TrimEmpty(Kept(Lines(text), ""));
            && Neutralise(text) == Join("\n", t)
            && Lines(Neutralise(text)) == (if t == [] then [""] else t)
            && Kept(t, "") == t && FlushEnds(t) && NoLineFeeds(t)
            && MarkerAfter(t, "") == MarkerAfter(Kept(Lines(text), ""), "")
  {
    hide Kept, MarkerAfter, Strip, TrimEmpty;
    var k := Kept(Lines(text), "");
    KeptHasNoLineFeeds(Lines(text), "");
    StripOfJoin(k);
    KeptTwice(Lines(text), "");
    TrimEmptyIsFlush(k);
    KeptTrimmed(k);
    var t := TrimEmpty(k);
    assert "\n" == ['\n'];
    if t == [] { assert Join("\n", t) == "" && Lines("") == [""]; } else { SplitOfJoin(t, '\n'); }
  }

  lemma KeptTrimmed(lines: seq<string>)
    requires Kept(lines, "") == lines
    ensures Kept(TrimEmpty(lines), "") == TrimEmpty(lines)
    ensures MarkerAfter(TrimEmpty(lines), "") == MarkerAfter(lines, "")
  {
    hide Kept, MarkerAfter;
    KeptWithoutFront(lines);
    KeptWithoutBack(DropEmptyFront(lines));
  }

  /** Cleaning a cleaned text changes nothing. */
  lemma NeutraliseTwice(text: string)
    ensures Neutralise(Neutralise(text)) == Neutralise(text)
  {
    hide Kept, MarkerAfter, Strip, TrimEmpty, Lines;
    LinesOfNeutralised(text);
    var t := TrimEmpty(Kept(Lines(text), ""));
    if t == [] {
      EmptyLineIsKept("");
      StripKeeps("", IsLineFeed);
      assert Join("\n", [""]) == "" == Join("\n", t);
    } else {
      StripOfFlushJoin(t);
    }
  }

  // ----- fences of the cleaned text -----

  lemma MarkerOfCons(line: string, rest: seq<string>, marker: string)
    ensures MarkerAfter([line] + rest, marker) ==
              MarkerAfter(rest, if marker != "" then (if ClosesFence(line, marker) then "" else marker)
                                else if FenceOpener(line).Some? then FenceOpener(line).value.fence else "")
  {
    hide FenceOpener, ClosesFence;
    assert ([line] + rest)[1..] == rest;
  }

  lemma {:induction false} MarkerOfKept(lines: seq<string>, marker: string)
    ensures MarkerAfter(Kept(lines, marker), marker) == MarkerAfter(lines, marker)
    decreases |lines|
  {
    hide FenceOpener, ClosesFence, IsRule, RStrip, Kept, MarkerAfter;
    if lines == [] {
      KeptNothing(marker);
    } else {
      var line, rest := lines[0], lines[1..];
      assert lines == [line] + rest;
      MarkerOfCons(line, rest, marker);
      if marker != "" {
        var next := if ClosesFence(line, marker) then "" else marker;
        KeptHead(line, rest, marker);
        MarkerOfCons(line, Kept(rest, next), marker);
        MarkerOfKept(rest, next);
      } else if FenceOpener(line).Some? {
        var next := FenceOpener(line).value.fence;
        KeptOpener(line, rest);
        MarkerOfCons(line, Kept(rest, next), "");
        MarkerOfKept(rest, next);
      } else {
        KeptOther(line, rest);
        MarkerOfKept(rest, "");
        TrimmingOpensNothing(line);
        MarkerOfCons(RStrip(line, IsSpace), Kept(rest, ""), "");
      }
    }
  }

  lemma KeptNothing(marker: string)
    ensures Kept([], marker) == []
  {
  }

  /** Where a fence closes does not depend on what follows. */
  lemma {:induction false} ClosedBody(a: seq<string>, b: seq<string>, marker: string)
    requires marker != "" && MarkerAfter(a, marker) == ""
    ensures BodyLength(a + b, marker) == BodyLength(a, marker)
    ensures MarkerAfter(a[BodyLength(a, marker)..], "") == ""
  {
    hide ClosesFence, FenceOpener, BodyLength, MarkerAfter;
    if a == [] {
      MarkerOfNothing(marker);
    } else {
      var line, rest := a[0], a[1..];
      assert a == [line] + rest && a + b == [line] + (rest + b);
      BodyOfCons(line, rest, marker);
      BodyOfCons(line, rest + b, marker);
      MarkerOfCons(line, rest, marker);
      if !ClosesFence(line, marker) {
        ClosedBody(rest, b, marker);
        HeadSlices(line, rest, BodyLength(rest, marker));
      }
    }
  }

  lemma MarkerOfNothing(marker: string)
    ensures MarkerAfter([], marker) == marker
  {
  }

  lemma {:induction false} BlocksAppend(a: seq<string>, b: seq<string>)
    requires MarkerAfter(a, "") == ""
    ensures FenceBlocks(a + b) == FenceBlocks(a) + FenceBlocks(b)
    decreases |a|
  {
    hide FenceOpener, MarkerAfter, FenceBlocks;
    if a == [] {
      assert a + b == b;
      NoBlocks(a, a);
      assert [] + FenceBlocks(b) == FenceBlocks(b);
    } else {
      var line, rest := a[0], a[1..];
      assert a == [line] + rest && a + b == [line] + (rest + b);
      MarkerOfCons(line, rest, "");
      if FenceOpener(line).Some? {
        var marker := FenceOpener(line).value.fence;
        ClosedBody(rest, b, marker);
        var n := 1 + BodyLength(rest, marker);
        BlocksOfOpener(line, rest);
        BlocksOfOpener(line, rest + b);
        assert (a + b)[..n] == a[..n] && (a + b)[n..] == a[n..] + b;
        assert a[n..] == rest[n - 1..];
        BlocksAppend(a[n..], b);
        Assoc([a[..n]], FenceBlocks(a[n..]), FenceBlocks(b));
      } else {
        BlocksOfOther(line, rest);
        BlocksOfOther(line, rest + b);
        BlocksAppend(rest, b);
      }
    }
  }

  lemma {:induction false} BlocksWithoutFront(lines: seq<string>)
    ensures FenceBlocks(DropEmptyFront(lines)) == FenceBlocks(lines)
  {
    hide FenceBlocks;
    if lines != [] && lines[0] == "" {
      assert lines == [""] + lines[1..];
      BlocksOfOther("", lines[1..]);
      BlocksWithoutFront(lines[1..]);
    }
  }

  lemma {:induction false} BlocksWithoutBack(lines: seq<string>)
    requires MarkerAfter(lines, "") == ""
    ensures FenceBlocks(DropEmptyBack(lines)) == FenceBlocks(lines)
  {
    hide FenceBlocks, MarkerAfter;
    if lines != [] && lines[|lines| - 1] == "" {
      var init := lines[..|lines| - 1];
      assert lines == init + [""];
      EmptyLineIsKept(MarkerAfter(init, ""));
      MarkerAppend(init, [""], "");
      BlocksAppend(init, [""]);
      BlocksOfOther("", []);
      assert [""] + [] == [""];
      NoBlocks([], []);
      BlocksWithoutBack(init);
    }
  }

  // ----- a last fence that is not closed -----

  /** Whether a fence with this marker closes in the lines. */
  predicate Closes(lines: seq<string>, marker: string)
    requires marker != ""
  {
    exists i :: 0 <= i < |lines| && ClosesFence(lines[i], marker)
  }

  lemma {:induction false} BodyThatCloses(a: seq<string>, b: seq<string>, marker: string)
    requires marker != "" && Closes(a, marker)
    ensures BodyLength(a + b, marker) == BodyLength(a, marker)
    ensures MarkerAfter(a, marker) == MarkerAfter(a[BodyLength(a, marker)..], "")
  {
    hide ClosesFence, FenceOpener, BodyLength, MarkerAfter;
    var line, rest := a[0], a[1..];
    assert a == [line] + rest && a + b == [line] + (rest + b);
    BodyOfCons(line, rest, marker);
    BodyOfCons(line, rest + b, marker);
    MarkerOfCons(line, rest, marker);
    if !ClosesFence(line, marker) {
      var i :| 0 <= i < |a| && ClosesFence(a[i], marker);
      assert rest[i - 1] == a[i];
      BodyThatCloses(rest, b, marker);
      HeadSlices(line, rest, BodyLength(rest, marker));
    } else {
      assert a[1..] == rest;
    }
  }

  lemma {:induction false} BodyThatStaysOpen(a: seq<string>, marker: string)
    requires marker != "" && !Closes(a, marker)
    ensures BodyLength(a, marker) == |a| && MarkerAfter(a, marker) == marker
  {
    hide ClosesFence, FenceOpener, BodyLength, MarkerAfter;
    if a == [] {
      NothingInside(marker);
      MarkerOfNothing(marker);
    } else {
      var line, rest := a[0], a[1..];
      assert a == [line] + rest;
      BodyOfCons(line, rest, marker);
      MarkerOfCons(line, rest, marker);
      assert forall i :: 0 <= i < |rest| ==> rest[i] == a[i + 1];
      BodyThatStaysOpen(rest, marker);
    }
  }

  lemma BodyOfOpenAndOne(a: seq<string>, l: string, marker: string)
    requires marker != "" && !Closes(a, marker)
    ensures BodyLength(a + [l], marker) == |a| + 1
    decreases |a|
  {
    hide ClosesFence;
    if a == [] {
      assert [] + [l] == [l] && [l][1..] == [];
    } else {
      assert (a + [l])[1..] == a[1..] + [l];
      assert forall i :: 0 <= i < |a| - 1 ==> a[1..][i] == a[i + 1];
      BodyOfOpenAndOne(a[1..], l, marker);
    }
  }

  function WithLast(blocks: seq<seq<string>>, last: seq<string>): seq<seq<string>>
    requires blocks != []
  {
    blocks[..|blocks| - 1] + [last]
  }

  lemma WithLastOfCons(block: seq<string>, blocks: seq<seq<string>>, last: seq<string>)
    requires blocks != []
    ensures WithLast([block] + blocks, last) == [block] + WithLast(blocks, last)
    ensures ([block] + blocks)[|blocks|] == blocks[|blocks| - 1]
  {
    assert ([block] + blocks)[..|blocks|] == [block] + blocks[..|blocks| - 1];
  }

  lemma NoLinesNoBlocks()
    ensures FenceBlocks([]) == []
  {
  }

  /** A line after an open fence belongs to it. */
  lemma {:induction false} OpenBlocksAppend(a: seq<string>, l: string)
    requires MarkerAfter(a, "") != ""
    ensures var blocks := FenceBlocks(a);
            blocks != [] && FenceBlocks(a + [l]) == WithLast(blocks, blocks[|blocks| - 1] + [l])
    decreases |a|
  {
    hide FenceOpener, MarkerAfter, FenceBlocks, Closes, WithLast, BodyLength;
    if a == [] {
      MarkerOfNothing("");
    } else {
      var line, rest := a[0], a[1..];
      assert a == [line] + rest && a + [l] == [line] + (rest + [l]);
      MarkerOfCons(line, rest, "");
      if FenceOpener(line).Some? {
        var marker := FenceOpener(line).value.fence;
        BlocksOfOpener(line, rest);
        BlocksOfOpener(line, rest + [l]);
        if Closes(rest, marker) {
          var n := 1 + BodyLength(rest, marker);
          BodyThatCloses(rest, [l], marker);
          assert (a + [l])[..n] == a[..n] && (a + [l])[n..] == a[n..] + [l] && a[n..] == rest[n - 1..];
          OpenBlocksAppend(a[n..], l);
          var blocks := FenceBlocks(a[n..]);
          WithLastOfCons(a[..n], blocks, blocks[|blocks| - 1] + [l]);
        } else {
          BodyThatStaysOpen(rest, marker);
          BodyOfOpenAndOne(rest, l, marker);
          NoLinesNoBlocks();
          OnlyBlock(a, l);
        }
      } else {
        BlocksOfOther(line, rest);
        BlocksOfOther(line, rest + [l]);
        OpenBlocksAppend(rest, l);
      }
    }
  }

  lemma OnlyBlock(a: seq<string>, l: string)
    ensures a[..|a|] == a && a[|a|..] == [] && (a + [l])[..|a| + 1] == a + [l] && (a + [l])[|a| + 1..] == []
    ensures WithLast([a] + [], a + [l]) == [a + [l]]
  {
    assert [a][..0] == [];
  }

  /** The last block of lines that end in an open fence ends with the last line. */
  lemma OpenEndsWithLast(lines: seq<string>)
    requires MarkerAfter(lines, "") != ""
    ensures lines != []
    ensures var blocks := FenceBlocks(lines);
            && blocks != [] && blocks[|blocks| - 1] != []
            && blocks[|blocks| - 1][|blocks[|blocks| - 1]| - 1] == lines[|lines| - 1]
  {
    hide FenceOpener, MarkerAfter, FenceBlocks;
    if lines == [] {
      MarkerOfNothing("");
    } else {
      var init, last := lines[..|lines| - 1], lines[|lines| - 1];
      assert lines == init + [last];
      if MarkerAfter(init, "") != "" {
        OpenBlocksAppend(init, last);
      } else {
        MarkerAppend(init, [last], "");
        BlocksAppend(init, [last]);
        LastLineOpens(last);
      }
    }
  }

  lemma LastLineOpens(last: string)
    requires MarkerAfter([last], "") != ""
    ensures FenceBlocks([last]) == [[last]]
  {
    hide FenceOpener;
    assert [last][1..] == [] && [last][..1] == [last];
  }

  lemma {:induction false} OpenBlocksWithoutBack(lines: seq<string>)
    requires MarkerAfter(lines, "") != ""
    ensures var blocks := FenceBlocks(lines);
            && blocks != []
            && FenceBlocks(DropEmptyBack(lines)) == WithLast(blocks, DropEmptyBack(blocks[|blocks| - 1]))
  {
    hide FenceBlocks, MarkerAfter;
    OpenEndsWithLast(lines);
    var blocks := FenceBlocks(lines);
    if lines[|lines| - 1] == "" {
      var init := lines[..|lines| - 1];
      assert lines == init + [""];
      EmptyLineIsKept(MarkerAfter(init, ""));
      MarkerAppend(init, [""], "");
      OpenBlocksAppend(init, "");
      OpenBlocksWithoutBack(init);
      DropOneBack(FenceBlocks(init)[|FenceBlocks(init)| - 1]);
    } else {
      assert WithLast(blocks, blocks[|blocks| - 1]) == blocks;
    }
  }

  lemma DropOneBack(lines: seq<string>)
    ensures DropEmptyBack(lines + [""]) == DropEmptyBack(lines)
  {
    assert (lines + [""])[..|lines|] == lines;
  }

  lemma {:induction false} LastLineEmpty(text: string)
    ensures Lines(text)[|Lines(text)| - 1] == "" <==> text == "" || text[|text| - 1] == '\n'
  {
    if text != "" {
      LastLineEmpty(text[1..]);
      var rest := Lines(text[1..]);
      if text[0] != '\n' {
        assert Lines(text) == [[text[0]] + rest[0]] + rest[1..];
      } else {
        assert Lines(text) == [""] + rest;
      }
    }
  }

  ghost function FenceLines(text: string): seq<seq<string>> { Slices(Lines(text), Fences(Lines(text), 0)) }

  lemma FenceLinesAreBlocks(text: string)
    ensures FenceLines(text) == FenceBlocks(Lines(text))
  {
    hide FenceBlocks, Fences, Slices, Lines;
    var lines := Lines(text);
    BlocksAreScannedFences(lines, 0);
    assert lines[0..] == lines;
  }

  lemma BlocksOfNeutralised(text: string)
    ensures FenceBlocks(Lines(Neutralise(text))) == FenceBlocks(TrimEmpty(Kept(Lines(text), "")))
  {
    hide FenceBlocks, MarkerAfter, Kept, TrimEmpty, Neutralise;
    LinesOfNeutralised(text);
    if TrimEmpty(Kept(Lines(text), "")) == [] {
      BlocksOfOther("", []);
      assert [""] + [] == [""];
    }
  }

  /** The scanner finds the same fences in the cleaned text, line for line, except that a last fence that is not
      closed loses its empty lines at the end. */
  lemma NeutraliseKeepsClosedFences(text: string)
    ensures var before, after := FenceLines(text), FenceLines(Neutralise(text));
            if MarkerAfter(Lines(text), "") == "" then after == before
            else before != [] && after == WithLast(before, DropEmptyBack(before[|before| - 1]))
  {
    hide FenceBlocks, MarkerAfter, Kept, FenceLines, Lines, TrimEmpty, Neutralise, WithLast;
    var lines := Lines(text);
    var k := Kept(lines, "");
    FenceLinesAreBlocks(text);
    FenceLinesAreBlocks(Neutralise(text));
    BlocksOfNeutralised(text);
    MarkerOfKept(lines, "");
    KeptTwice(lines, "");
    KeptKeepsFences(lines);
    if MarkerAfter(lines, "") == "" { BlocksTrimmed(k); } else { OpenBlocksTrimmed(k); }
  }

  lemma OpenBlocksTrimmed(lines: seq<string>)
    requires MarkerAfter(lines, "") != "" && Kept(lines, "") == lines
    ensures var blocks := FenceBlocks(lines);
            blocks != [] && FenceBlocks(TrimEmpty(lines)) == WithLast(blocks, DropEmptyBack(blocks[|blocks| - 1]))
  {
    hide FenceBlocks, MarkerAfter, Kept, WithLast;
    BlocksWithoutFront(lines);
    KeptWithoutFront(lines);
    OpenBlocksWithoutBack(DropEmptyFront(lines));
  }

  /** Not a character of any fence is touched exactly when the last fence is closed or the text does not end
      with a line feed. */
  lemma NeutraliseKeepsFences(text: string)
    ensures FenceLines(Neutralise(text)) == FenceLines(text) <==>
              MarkerAfter(Lines(text), "") == "" || !EndsWith(text, "\n")
  {
    hide FenceBlocks, MarkerAfter, FenceLines, Neutralise;
    NeutraliseKeepsClosedFences(text);
    if MarkerAfter(Lines(text), "") != "" {
      FenceLinesAreBlocks(text);
      OpenEndsWithLast(Lines(text));
      LastLineEmpty(text);
      var blocks := FenceBlocks(Lines(text));
      var last := blocks[|blocks| - 1];
      assert DropEmptyBack(last) == last <==> last[|last| - 1] != "" by { DropEmptyBackShortens(last); }
      assert WithLast(blocks, DropEmptyBack(last))[|blocks| - 1] == DropEmptyBack(last);
      assert WithLast(blocks, last) == blocks;
      assert text != "" by { EmptyTextIsClosed(); }
    }
  }

  lemma {:induction false} DropEmptyBackShortens(lines: seq<string>)
    ensures |DropEmptyBack(lines)| <= |lines|
    ensures lines != [] && lines[|lines| - 1] == "" ==> |DropEmptyBack(lines)| < |lines|
  {
    if lines != [] && lines[|lines| - 1] == "" { DropEmptyBackShortens(lines[..|lines| - 1]); }
  }

  lemma EmptyTextIsClosed()
    ensures MarkerAfter(Lines(""), "") == ""
  {
    EmptyLineIsKept("");
  }

  lemma OpenFenceLines()
    ensures Lines("```\n") == ["```", ""]
  {
    SplitFirstPart("```", '\n', "");
    assert "```" + ['\n'] + "" == "```\n";
  }

  lemma OpenFenceBlocks()
    ensures FenceBlocks(["```", ""]) == [["```", ""]] && MarkerAfter(["```", ""], "") == "```"
  {
    hide FenceOpener, FenceBlocks, MarkerAfter, BodyLength;
    var opener := "```";
    TicksOpen();
    EmptyDoesNotClose(opener);
    EmptyLineIsKept(opener);
    var lines := [opener] + [""];
    MarkerOfCons(opener, [""], "");
    BlocksOfOpener(opener, [""]);
    NoLinesNoBlocks();
    assert lines == ["```", ""] && lines[..2] == lines && lines[2..] == [];
    assert MarkerAfter(lines, "") == opener;
  }

  /** The docstring's promise fails here: the open fence loses the empty line it ends with. */
  lemma OpenFenceLosesItsEnd()
    ensures FenceLines("```\n") == [["```", ""]] && FenceLines(Neutralise("```\n")) == [["```"]]
  {
    hide FenceBlocks, FenceLines, Neutralise, MarkerAfter, Lines, DropEmptyBack;
    OpenFenceLines();
    OpenFenceBlocks();
    FenceLinesAreBlocks("```\n");
    NeutraliseKeepsClosedFences("```\n");
    DropOneBack(["```"]);
    assert ["```"] + [""] == ["```", ""];
    assert DropEmptyBack(["```"]) == ["```"] by { NothingAtBack(); }
  }

  lemma NothingAtBack()
    ensures DropEmptyBack(["```"]) == ["```"]
  {
  }

  lemma TicksOpen()
    ensures FenceOpener("```") == Some(Opener(0, "```", ""))
  {
    var line := "```";
    assert RunLength(line, IsBlank) == 0;
    assert line[0..] == line;
    RunOver(line, "", IsTick);
    assert line + "" == line && line[..3] == line && line[3..] == "";
  }

  lemma EmptyDoesNotClose(marker: string)
    requires marker != ""
    ensures BodyLength([""], marker) == 1
  {
    StripEmpty("", IsSpace);
    assert [""][1..] == [];
  }

  lemma BlocksTrimmed(lines: seq<string>)
    requires MarkerAfter(lines, "") == "" && Kept(lines, "") == lines
    ensures FenceBlocks(TrimEmpty(lines)) == FenceBlocks(lines)
  {
    hide FenceBlocks, MarkerAfter, Kept;
    BlocksWithoutFront(lines);
    KeptWithoutFront(lines);
    BlocksWithoutBack(DropEmptyFront(lines));
  }

  // ----- line by line -----

  /** What stays of one line: all of it in a fence, nothing of a rule, and the line without trailing blanks
      otherwise. */
  ghost function Piece(lines: seq<string>, fences: seq<Fence>, i: nat): seq<string>
    requires i < |lines|
  {
    if !Outside(i, fences) then [lines[i]] else if IsRule(lines[i]) then [] else [RStrip(lines[i], IsSpace)]
  }

  ghost function LineByLine(lines: seq<string>, fences: seq<Fence>, i: nat): seq<string>
    decreases |lines| - i
  {
    if i >= |lines| then [] else Piece(lines, fences, i) + LineByLine(lines, fences, i + 1)
  }

  lemma {:induction false} InsideIsWhole(lines: seq<string>, fences: seq<Fence>, i: nat, j: nat)
    requires i <= j <= |lines| && forall k :: i <= k < j ==> !Outside(k, fences)
    ensures LineByLine(lines, fences, i) == lines[i..j] + LineByLine(lines, fences, j)
    decreases j - i
  {
    hide Outside, IsRule, RStrip;
    if i < j {
      assert Piece(lines, fences, i) == [lines[i]];
      hide Piece;
      InsideIsWhole(lines, fences, i + 1, j);
      assert lines[i..j] == [lines[i]] + lines[i + 1..j];
      Assoc([lines[i]], lines[i + 1..j], LineByLine(lines, fences, j));
    } else {
      assert lines[i..j] == [];
    }
  }

  lemma {:induction false} PastFenceDoesNotMatter(lines: seq<string>, f: Fence, rest: seq<Fence>, i: nat)
    requires f.end < i
    ensures LineByLine(lines, [f] + rest, i) == LineByLine(lines, rest, i)
    decreases |lines| - i
  {
    hide IsRule, RStrip, Outside;
    if i < |lines| {
      PastFence(f, rest, i);
      PastFenceDoesNotMatter(lines, f, rest, i + 1);
    }
  }

  lemma FenceIsInside(f: Fence, rest: seq<Fence>)
    ensures forall k :: f.start <= k <= f.end ==> !Outside(k, [f] + rest)
  {
    assert f in [f] + rest;
  }

  lemma KeptFenceAt(lines: seq<string>, i: nat)
    requires i < |lines| && FenceOpener(lines[i]).Some?
    ensures var end := FenceAt(lines, i).end;
            Kept(lines[i..], "") == lines[i..end + 1] + Kept(lines[end + 1..], "")
  {
    hide FenceOpener, ClosesFence, BodyLength, Kept;
    var marker := FenceOpener(lines[i]).value.fence;
    CloseIsBodyLength(lines, i + 1, marker);
    var n := 1 + BodyLength(lines[i + 1..], marker);
    assert i + n == FenceAt(lines, i).end + 1;
    TailSlices(lines, i, n);
    KeptFence(lines[i..]);
  }

  lemma KeptPlain(lines: seq<string>, i: nat)
    requires i < |lines| && FenceOpener(lines[i]) == None
    ensures Kept(lines[i..], "") ==
            (if IsRule(lines[i]) then [] else [RStrip(lines[i], IsSpace)]) + Kept(lines[i + 1..], "")
  {
    hide FenceOpener, IsRule, RStrip;
    assert lines[i..][1..] == lines[i + 1..];
  }

  /** The clean-up, line by line over the fences that the scanner finds. */
  lemma {:induction false} KeptIsLineByLine(lines: seq<string>, i: nat)
    requires i <= |lines|
    ensures Kept(lines[i..], "") == LineByLine(lines, Fences(lines, i), i)
    decreases |lines| - i
  {
    hide FenceOpener, FenceAt, IsRule, RStrip, Kept, Outside;
    if i == |lines| {
      assert lines[i..] == [];
      KeptNone();
    } else if FenceOpener(lines[i]).Some? {
      var f := FenceAt(lines, i);
      var rest := Fences(lines, f.end + 1);
      KeptFenceAt(lines, i);
      KeptIsLineByLine(lines, f.end + 1);
      FenceIsInside(f, rest);
      InsideIsWhole(lines, [f] + rest, i, f.end + 1);
      PastFenceDoesNotMatter(lines, f, rest, f.end + 1);
    } else {
      KeptPlain(lines, i);
      KeptIsLineByLine(lines, i + 1);
      FencesAscend(lines, i + 1);
      LineIsOutside(Fences(lines, i + 1), i, i + 1, |lines|);
    }
  }

  lemma KeptNone()
    ensures Kept([], "") == []
  {
  }

  // ----- no ATX heading is missed -----

  lemma UnderlineIsNoAtx(line: string)
    requires IsUnderline(line)
    ensures AtxLevel(line) == 0
  {
    var n := RunLength(line, IsSpaceChar);
    assert line[n..][0] == '=';
  }

  /** A heading the scanner returns for an ATX line is that line's, and every such line outside the fences has
      its heading, if it has a title. */
  lemma {:induction false} AtxHeadingsAreFound(x: Texts, lines: seq<string>, i: nat, k: nat, level: nat, title: string)
    requires i <= k < |lines| && AtxLevel(lines[k]) > 0
    ensures Heading(k, level, title) in Headings(x, lines, i) <==>
            Outside(k, Fences(lines, i)) && level == AtxLevel(lines[k]) && title == x.atx(lines[k]) && title != ""
    decreases |lines| - i
  {
    hide FenceOpener, FenceAt, AtxLevel, SetextAt, Outside, Placed, Headings, Fences, Ascending;
    if FenceOpener(lines[i]).Some? {
      var f := FenceAt(lines, i);
      SkipFence(x, lines, i);
      if k <= f.end {
        NoHeadingInFence(x, lines, i, Heading(k, level, title));
      } else {
        AtxHeadingsAreFound(x, lines, f.end + 1, k, level, title);
        PastFence(f, Fences(lines, f.end + 1), k);
      }
    } else {
      var next := NextLine(lines, i);
      SetextSkipsNoFence(lines, i);
      HeadingsStep(x, lines, i, Heading(k, level, title));
      if SetextAt(lines, i) { SetextUnderlines(lines, i); }
      if k >= next {
        AtxHeadingsAreFound(x, lines, next, k, level, title);
      } else {
        FencesAscend(lines, next);
        LineIsOutside(Fences(lines, next), i, next, |lines|);
      }
    }
  }

  lemma SkipFence(x: Texts, lines: seq<string>, i: nat)
    requires i < |lines| && FenceOpener(lines[i]).Some?
    ensures var f := FenceAt(lines, i);
            && Headings(x, lines, i) == Headings(x, lines, f.end + 1)
            && Fences(lines, i) == [f] + Fences(lines, f.end + 1)
  {
    hide FenceOpener, FenceAt;
  }

  function NextLine(lines: seq<string>, i: nat): (next: nat)
    requires i < |lines|
    ensures i < next <= i + 2
  {
    if AtxLevel(lines[i]) == 0 && SetextAt(lines, i) then i + 2 else i + 1
  }

  /** A line outside the fences adds its own heading and no other. */
  lemma HeadingsStep(x: Texts, lines: seq<string>, i: nat, h: Heading)
    requires i < |lines| && FenceOpener(lines[i]) == None
    ensures h.line > i ==> (h in Headings(x, lines, i) <==> h in Headings(x, lines, NextLine(lines, i)))
    ensures h.line == i && AtxLevel(lines[i]) > 0 ==>
              (h in Headings(x, lines, i) <==> h == Heading(i, AtxLevel(lines[i]), x.atx(lines[i])) && h.text != "")
  {
    hide FenceOpener, FenceAt, AtxLevel, SetextAt, Outside, Placed;
    var next := NextLine(lines, i);
    HeadingsArePlaced(x, lines, next);
    LaterHeadingsAreLater(Headings(x, lines, next), Fences(lines, next), next, |lines|);
  }

  lemma NoHeadingInFence(x: Texts, lines: seq<string>, i: nat, h: Heading)
    requires i < |lines| && FenceOpener(lines[i]).Some? && i <= h.line <= FenceAt(lines, i).end
    ensures h !in Headings(x, lines, i) && !Outside(h.line, Fences(lines, i))
  {
    hide FenceOpener, FenceAt, Outside, Placed, Headings;
    FenceIsInside(FenceAt(lines, i), Fences(lines, FenceAt(lines, i).end + 1));
    HeadingsArePlaced(x, lines, i);
    PlacedMeansOutside(Headings(x, lines, i), Fences(lines, i), i, |lines|, h);
  }

  lemma SetextUnderlines(lines: seq<string>, i: nat)
    requires i < |lines| && SetextAt(lines, i)
    ensures AtxLevel(lines[i + 1]) == 0
  {
    UnderlineIsNoAtx(lines[i + 1]);
  }

  lemma PastFence(f: Fence, rest: seq<Fence>, k: nat)
    requires f.end < k
    ensures Outside(k, [f] + rest) <==> Outside(k, rest)
  {
  }

  lemma PlacedMeansOutside(hs: seq<Heading>, fences: seq<Fence>, lo: nat, hi: nat, h: Heading)
    requires Placed(hs, fences, lo, hi)
    ensures h in hs ==> Outside(h.line, fences)
  {
  }

  lemma LaterHeadingsAreLater(hs: seq<Heading>, fences: seq<Fence>, lo: nat, hi: nat)
    requires Placed(hs, fences, lo, hi)
    ensures forall h :: h in hs ==> h.line >= lo
  {
  }

  // ----- no setext heading is missed -----

  /** The line is the underline of a setext heading found when the scan starts at line i. */
  ghost predicate Underlines(lines: seq<string>, fences: seq<Fence>, i: nat, k: nat)
    requires k <= |lines|
  {
    && i < k && !Underlines(lines, fences, i, k - 1) && Outside(k - 1, fences)
    && AtxLevel(lines[k - 1]) == 0 && SetextAt(lines, k - 1)
  }

  /** Later starts make no difference to later lines. */
  lemma {:induction false} UnderlinesFrom(
      lines: seq<string>, fences: seq<Fence>, later: seq<Fence>, i: nat, j: nat, k: nat)
    requires i < j <= k <= |lines| && !Underlines(lines, fences, i, j)
    requires forall m :: j <= m ==> (Outside(m, fences) <==> Outside(m, later))
    ensures Underlines(lines, fences, i, k) <==> Underlines(lines, later, j, k)
    decreases k
  {
    hide Outside, SetextAt, AtxLevel;
    if k > j { UnderlinesFrom(lines, fences, later, i, j, k - 1); }
  }

  lemma LineAfterFence(lines: seq<string>, f: Fence, rest: seq<Fence>, i: nat)
    requires f.start <= f.end < |lines| && i <= f.end
    ensures !Underlines(lines, [f] + rest, i, f.end + 1)
  {
    FenceIsInside(f, rest);
  }

  lemma LineAfterNext(lines: seq<string>, fences: seq<Fence>, i: nat)
    requires i < |lines| && Outside(i, fences)
    ensures NextLine(lines, i) <= |lines| && !Underlines(lines, fences, i, NextLine(lines, i))
    ensures NextLine(lines, i) == i + 2 ==> Underlines(lines, fences, i, i + 1)
  {
    hide AtxLevel, Outside;
    assert !Underlines(lines, fences, i, i);
    if NextLine(lines, i) == i + 2 { assert Underlines(lines, fences, i, i + 1); }
  }

  /** What a plain line adds. */
  lemma SetextStep(x: Texts, lines: seq<string>, i: nat, level: nat, title: string)
    requires i < |lines| && FenceOpener(lines[i]) == None && AtxLevel(lines[i]) == 0
    ensures Heading(i, level, title) in Headings(x, lines, i) <==>
              SetextAt(lines, i) && level == 1 && title == x.plain(lines[i]) && title != ""
    ensures NextLine(lines, i) == i + 2 ==> Heading(i + 1, level, title) !in Headings(x, lines, i)
  {
    hide FenceOpener, FenceAt, AtxLevel, SetextAt, Outside, Placed;
    var next := NextLine(lines, i);
    HeadingsArePlaced(x, lines, next);
    LaterHeadingsAreLater(Headings(x, lines, next), Fences(lines, next), next, |lines|);
  }

  /** A line that is no ATX heading is a heading if and only if it is outside every fence, is followed by an
      underline, is no underline itself, and has a title; its level is then one. */
  lemma {:induction false} SetextHeadingsAreFound(x: Texts, lines: seq<string>, i: nat, k: nat, level: nat, title: string)
    requires i <= k < |lines| && AtxLevel(lines[k]) == 0
    ensures Heading(k, level, title) in Headings(x, lines, i) <==>
              && Outside(k, Fences(lines, i)) && SetextAt(lines, k) && !Underlines(lines, Fences(lines, i), i, k)
              && level == 1 && title == x.plain(lines[k]) && title != ""
    decreases |lines| - i
  {
    hide FenceOpener, FenceAt, AtxLevel, SetextAt, Outside, Placed, Headings, Fences, Ascending, Underlines;
    if FenceOpener(lines[i]).Some? {
      var f := FenceAt(lines, i);
      var rest := Fences(lines, f.end + 1);
      SkipFence(x, lines, i);
      if k <= f.end {
        NoHeadingInFence(x, lines, i, Heading(k, level, title));
      } else {
        SetextHeadingsAreFound(x, lines, f.end + 1, k, level, title);
        forall m | f.end + 1 <= m ensures Outside(m, [f] + rest) <==> Outside(m, rest) { PastFence(f, rest, m); }
        LineAfterFence(lines, f, rest, i);
        UnderlinesFrom(lines, [f] + rest, rest, i, f.end + 1, k);
      }
    } else {
      SetextAtPlainLine(x, lines, i, k, level, title);
      if k >= NextLine(lines, i) { SetextHeadingsAreFound(x, lines, NextLine(lines, i), k, level, title); }
    }
  }

  /** One step of the scan over a line outside the fences. */
  lemma SetextAtPlainLine(x: Texts, lines: seq<string>, i: nat, k: nat, level: nat, title: string)
    requires i <= k < |lines| && AtxLevel(lines[k]) == 0 && FenceOpener(lines[i]) == None
    ensures var next, h, fences := NextLine(lines, i), Heading(k, level, title), Fences(lines, i);
            if k >= next then
              && (h in Headings(x, lines, i) <==> h in Headings(x, lines, next)) && fences == Fences(lines, next)
              && (Underlines(lines, fences, i, k) <==> Underlines(lines, fences, next, k))
            else
              h in Headings(x, lines, i) <==>
                && Outside(k, fences) && SetextAt(lines, k) && !Underlines(lines, fences, i, k)
                && level == 1 && title == x.plain(lines[k]) && title != ""
  {
    hide FenceOpener, FenceAt, AtxLevel, Outside, Placed, Headings, Fences, Ascending;
    var next, fences := NextLine(lines, i), Fences(lines, i);
    assert fences == Fences(lines, next) by { SetextSkipsNoFence(lines, i); }
    FencesAscend(lines, next);
    LineIsOutside(fences, i, next, |lines|);
    LineAfterNext(lines, fences, i);
    HeadingsStep(x, lines, i, Heading(k, level, title));
    if k >= next {
      UnderlinesFrom(lines, fences, fences, i, next, k);
    } else {
      NextLineIs(lines, i);
      assert AtxLevel(lines[i]) == 0;
      SetextStep(x, lines, i, level, title);
      if k == i {
        assert !Underlines(lines, fences, i, i);
      } else {
        assert k == i + 1 && next == i + 2;
      }
    }
  }

  lemma NextLineIs(lines: seq<string>, i: nat)
    requires i < |lines|
    ensures NextLine(lines, i) == if AtxLevel(lines[i]) == 0 && SetextAt(lines, i) then i + 2 else i + 1
  {
  }
}
