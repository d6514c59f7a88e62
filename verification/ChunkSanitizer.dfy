/** The clean-up step of every chunk text (infra/build_chunks.py): invisible characters go, shortcodes go
    from the prose, and the length is capped with an explicit truncation line. */
module ChunkSanitizer {
  import opened PyText

  const MAX_CHUNK_TEXT_CHARS := 24000

  const EXAMPLE := "Example:"

  // ----- (1) invisible and bidirectional control characters -----

  predicate IsInvisible(c: char) {
    var n := c as int;
    || n == 0xAD || 0x200B <= n <= 0x200F || 0x202A <= n <= 0x202E || 0x2060 <= n <= 0x2064
    || 0x2066 <= n <= 0x2069 || n == 0xFEFF
  }

  function RemoveInvisible(s: string): string {
    if s == "" then ""
    else (if IsInvisible(s[0]) then "" else [s[0]]) + RemoveInvisible(s[1..])
  }

  predicate AllVisible(s: string) { forall c :: c in s ==> !IsInvisible(c) }

  /** The soft hyphen, the zero-width and direction marks, the embeddings and overrides, the word joiner and the
      invisible operators, the isolates, and the byte order mark. */
  const INVISIBLE: set<int> := {
    0xAD, 0x200B, 0x200C, 0x200D, 0x200E, 0x200F, 0x202A, 0x202B, 0x202C, 0x202D, 0x202E,
    0x2060, 0x2061, 0x2062, 0x2063, 0x2064, 0x2066, 0x2067, 0x2068, 0x2069, 0xFEFF}

  lemma InvisibleCharacters(c: char)
    ensures IsInvisible(c) <==> c as int in INVISIBLE
  {
  }

  lemma {:induction false} RemoveInvisibleIs(s: string)
    ensures AllVisible(RemoveInvisible(s)) && forall c :: c in RemoveInvisible(s) ==> c as int !in INVISIBLE
    ensures AllVisible(s) || (forall c :: c in s ==> c as int !in INVISIBLE) ==> RemoveInvisible(s) == s
  {
    hide IsInvisible, INVISIBLE;
    forall c ensures IsInvisible(c) <==> c as int in INVISIBLE { InvisibleCharacters(c); }
    if s != "" {
      assert s[0] in s && forall c :: c in s[1..] ==> c in s;
      RemoveInvisibleIs(s[1..]);
      assert s == [s[0]] + s[1..];
    }
  }

  /** Every visible character stays, in order. */
  lemma {:induction false} RemoveInvisibleAppend(a: string, b: string)
    ensures RemoveInvisible(a + b) == RemoveInvisible(a) + RemoveInvisible(b)
  {
    hide IsInvisible;
    if a == "" {
      assert a + b == b;
    } else {
      assert (a + b)[1..] == a[1..] + b;
      RemoveInvisibleAppend(a[1..], b);
      Assoc(if IsInvisible(a[0]) then "" else [a[0]], RemoveInvisible(a[1..]), RemoveInvisible(b));
    }
  }

  // ----- (2) shortcodes -----

  predicate ClosesAt(s: string, k: nat, mark: char) {
    k + 3 <= |s| && s[k] == mark && s[k + 1] == '}' && s[k + 2] == '}'
  }

  /** The first place from k on where the closing mark and two braces stand, or the end. */
  function FindClose(s: string, k: nat, mark: char): (c: nat)
    requires k <= |s|
    ensures k <= c <= |s| && (c < |s| ==> ClosesAt(s, c, mark))
    ensures forall j :: k <= j < c ==> !ClosesAt(s, j, mark)
    decreases |s| - k
  {
    if k == |s| || ClosesAt(s, k, mark) then k else FindClose(s, k + 1, mark)
  }

  /** The length of the shortcode at the start: `{{<` to the nearest `>}}`, or `{{%` to the nearest `%}}`. */
  function CodeLength(s: string): (n: nat)
    ensures n == 0 || 6 <= n <= |s|
  {
    if |s| < 3 || s[0] != '{' || s[1] != '{' || (s[2] != '<' && s[2] != '%') then 0
    else
      var c := FindClose(s, 3, if s[2] == '<' then '>' else '%');
      if c < |s| then c + 3 else 0
  }

  predicate MarkAt(s: string, k: nat, mark: string) { k + 3 <= |s| && s[k..k + 3] == mark }

  /** What a shortcode of n characters at the start is: from one of the two opening marks to the first closing mark
      of its kind. */
  predicate ShortcodeOf(s: string, n: nat, open: string, close: string) {
    n >= 6 && MarkAt(s, 0, open) && MarkAt(s, n - 3, close) && forall k: nat :: 3 <= k < n - 3 ==> !MarkAt(s, k, close)
  }

  lemma CodeLengthIs(s: string, n: nat)
    requires n > 0
    ensures CodeLength(s) == n <==> ShortcodeOf(s, n, "{{<", ">}}") || ShortcodeOf(s, n, "{{%", "%}}")
  {
    hide MarkAt, ClosesAt, FindClose;
    MarkIs(s, 0, "{{<");
    MarkIs(s, 0, "{{%");
    if |s| >= 3 && s[0] == '{' && s[1] == '{' && (s[2] == '<' || s[2] == '%') {
      var mark := if s[2] == '<' then '>' else '%';
      var c := FindClose(s, 3, mark);
      forall k: nat ensures ClosesAt(s, k, mark) <==> MarkAt(s, k, [mark, '}', '}']) { CloseIsMark(s, k, mark); }
      assert c < |s| ==> c + 3 <= |s| by { if c < |s| { CloseIsMark(s, c, mark); } }
      if n >= 6 { MarkIs(s, n - 3, [mark, '}', '}']); }
    }
  }

  lemma MarkIs(s: string, k: nat, mark: string)
    requires |mark| == 3
    ensures MarkAt(s, k, mark) <==> k + 3 <= |s| && s[k] == mark[0] && s[k + 1] == mark[1] && s[k + 2] == mark[2]
  {
  }

  lemma CloseIsMark(s: string, k: nat, mark: char)
    ensures ClosesAt(s, k, mark) <==> MarkAt(s, k, [mark, '}', '}'])
    ensures ClosesAt(s, k, mark) ==> k + 3 <= |s|
  {
    MarkIs(s, k, [mark, '}', '}']);
  }

  /** Every shortcode removed, with the blank on each side: one blank stays where two would. */
  function Sub(s: string): string
    decreases |s|
  {
    if s == "" then ""
    else if s[0] == ' ' && CodeLength(s[1..]) > 0 then " " + Sub(SkipBlank(s[1 + CodeLength(s[1..])..]))
    else if CodeLength(s) > 0 then
      var rest := s[CodeLength(s)..];
      (if rest != "" && rest[0] == ' ' then " " else "") + Sub(SkipBlank(rest))
    else [s[0]] + Sub(s[1..])
  }

  function SkipBlank(s: string): (r: string)
    ensures |r| <= |s|
  {
    if s != "" && s[0] == ' ' then s[1..] else s
  }

  predicate IsBlankLine(s: string) { Strip(s, IsSpace) == "" }

  function StripProse(lines: seq<string>): seq<string> {
    if lines == [] then []
    else
      var stripped := Sub(lines[0]);
      (if stripped != lines[0] && IsBlankLine(stripped) then [] else [stripped]) + StripProse(lines[1..])
  }

  /** Each line of the prose is cleaned by itself, and is dropped exactly when the removal changed it and left
      nothing but white space. */
  lemma OneProseLine(line: string)
    ensures StripProse([line]) == if Sub(line) != line && forall i :: 0 <= i < |Sub(line)| ==> IsSpace(Sub(line)[i])
                                  then [] else [Sub(line)]
  {
    hide Sub, IsSpace;
    StripEmpty(Sub(line), IsSpace);
    assert [line][1..] == [];
  }

  lemma {:induction false} StripProseAppend(a: seq<string>, b: seq<string>)
    ensures StripProse(a + b) == StripProse(a) + StripProse(b)
  {
    hide Sub, IsBlankLine;
    if a == [] {
      assert a + b == b;
    } else {
      assert (a + b)[1..] == a[1..] + b;
      StripProseAppend(a[1..], b);
      var stripped := Sub(a[0]);
      Assoc(if stripped != a[0] && IsBlankLine(stripped) then [] else [stripped], StripProse(a[1..]), StripProse(b));
    }
  }

  /** lines.index("Example:"), or the number of lines. */
  function Boundary(lines: seq<string>): (b: nat)
    ensures b <= |lines| && (b < |lines| ==> lines[b] == EXAMPLE)
    ensures forall i :: 0 <= i < b ==> lines[i] != EXAMPLE
  {
    if lines == [] || lines[0] == EXAMPLE then 0 else 1 + Boundary(lines[1..])
  }

  predicate HasBraces(s: string) { exists i :: 0 <= i < |s| - 1 && s[i] == '{' && s[i + 1] == '{' }

  function CleanLines(lines: seq<string>): seq<string> {
    StripProse(lines[..Boundary(lines)]) + lines[Boundary(lines)..]
  }

  /** Steps (1) and (2). */
  function Clean(text: string): string {
    var visible := RemoveInvisible(text);
    if HasBraces(visible) then Join("\n", CleanLines(Lines(visible))) else visible
  }

  // ----- (3) the cap -----

  /** text.rfind("\n", 0, k): the last line feed before k, or -1. */
  function LastFeed(text: string, k: nat): (i: int)
    requires k <= |text|
    ensures -1 <= i < k && (0 <= i ==> text[i] == '\n')
    ensures forall j :: i < j < k ==> text[j] != '\n'
  {
    if k == 0 then -1 else if text[k - 1] == '\n' then k - 1 else LastFeed(text, k - 1)
  }

  function TruncationLine(omitted: nat): string {
    "Truncated: " + Decimal(omitted) + " characters omitted"
  }

  /** `Truncated: \d+ characters omitted`, matched in full. */
  predicate IsTruncationLine(line: string) {
    && |line| > 30 && line[..11] == "Truncated: " && line[|line| - 19..] == " characters omitted"
    && forall c :: c in line[11..|line| - 19] ==> IsDigit(c)
  }

  function HeadOf(text: string): string {
    var i := LastFeed(text, |text|);
    if i < 0 then "" else text[..i]
  }

  function LastLine(text: string): string { text[LastFeed(text, |text|) + 1..] }

  predicate AlreadyCapped(text: string) {
    IsTruncationLine(LastLine(text)) && |HeadOf(text)| <= MAX_CHUNK_TEXT_CHARS
  }

  function Cut(text: string): (n: nat)
    requires |text| > MAX_CHUNK_TEXT_CHARS
    ensures 0 < n <= MAX_CHUNK_TEXT_CHARS
    ensures if exists i :: 1 <= i <= MAX_CHUNK_TEXT_CHARS && text[i] == '\n'
            then text[n] == '\n' && forall i :: n < i <= MAX_CHUNK_TEXT_CHARS ==> text[i] != '\n'
            else n == MAX_CHUNK_TEXT_CHARS
  {
    var i := LastFeed(text, MAX_CHUNK_TEXT_CHARS + 1);
    if i <= 0 then MAX_CHUNK_TEXT_CHARS else i
  }

  function Cap(text: string): string {
    if |text| <= MAX_CHUNK_TEXT_CHARS || AlreadyCapped(text) then text
    else text[..Cut(text)] + "\n" + TruncationLine(|text| - Cut(text))
  }

  function Sanitize(text: string): string { Cap(Clean(text)) }

  /** _strip_shortcodes_from_prose */
  method StripShortcodesFromProse(prose: seq<string>) returns (kept: seq<string>)
    ensures kept == StripProse(prose)
  {
    hide Sub, IsBlankLine;
    kept := [];
    for i := 0 to |prose|
      invariant kept + StripProse(prose[i..]) == StripProse(prose)
    {
      var stripped := Sub(prose[i]);
      assert prose[i..][0] == prose[i] && prose[i..][1..] == prose[i + 1..];
      if stripped != prose[i] && IsBlankLine(stripped) { continue; }
      Assoc(kept, [stripped], StripProse(prose[i + 1..]));
      kept := kept + [stripped];
    }
    assert prose[|prose|..] == [];
  }

  /** _sanitize_chunk_text */
  method SanitizeChunkText(text: string) returns (clean: string)
    ensures clean == Sanitize(text)
  {
    hide StripProse, IsTruncationLine, LastLine, HeadOf;
    clean := RemoveInvisible(text);
    if HasBraces(clean) {
      var lines := Lines(clean);
      var boundary := Boundary(lines);
      var prose := StripShortcodesFromProse(lines[..boundary]);
      clean := Join("\n", prose + lines[boundary..]);
    }
    if |clean| > MAX_CHUNK_TEXT_CHARS {
      if IsTruncationLine(LastLine(clean)) && |HeadOf(clean)| <= MAX_CHUNK_TEXT_CHARS { return; }
      var cut := LastFeed(clean, MAX_CHUNK_TEXT_CHARS + 1);
      if cut <= 0 { cut := MAX_CHUNK_TEXT_CHARS; }
      clean := clean[..cut] + "\n" + TruncationLine(|clean| - cut);
    }
  }

  // ----- the length -----

  lemma TruncationLineMatches(n: nat)
    ensures IsTruncationLine(TruncationLine(n))
  {
    hide Decimal;
    DecimalIsDigits(n);
    var d, line := Decimal(n), TruncationLine(n);
    assert line[..11] == "Truncated: ";
    assert line[11..|line| - 19] == d;
    assert line[|line| - 19..] == " characters omitted";
  }

  /** A character that is no digit and in neither fixed part is not in the line. */
  lemma NotInTruncationLine(line: string, c: char)
    requires IsTruncationLine(line) && !IsDigit(c) && c !in "Truncated: " && c !in " characters omitted"
    ensures c !in line
  {
    assert line == line[..11] + line[11..|line| - 19] + line[|line| - 19..];
  }

  lemma NoFeedInTruncationLine(line: string)
    requires IsTruncationLine(line)
    ensures '\n' !in line && '{' !in line && line != EXAMPLE
  {
    NotInTruncationLine(line, '\n');
    NotInTruncationLine(line, '{');
    assert line[0] == line[..11][0];
  }

  lemma TruncationLineIsVisible(line: string)
    requires IsTruncationLine(line)
    ensures AllVisible(line)
  {
    forall c | c in line ensures !IsInvisible(c) {
      if c as int >= 0xAD { NotInTruncationLine(line, c); }
    }
  }

  lemma LastPartOfJoin(head: string, last: string)
    requires '\n' !in last
    ensures HeadOf(head + "\n" + last) == head && LastLine(head + "\n" + last) == last
  {
    var text := head + "\n" + last;
    var i := LastFeed(text, |text|);
    assert text[|head|] == '\n';
    assert forall j :: |head| < j < |text| ==> text[j] == last[j - |head| - 1];
    assert i == |head|;
  }

  predicate Fits(text: string) { |text| <= MAX_CHUNK_TEXT_CHARS || AlreadyCapped(text) }

  lemma CapFits(text: string)
    ensures Fits(Cap(text))
    ensures Fits(text) ==> Cap(text) == text
  {
    hide IsTruncationLine, TruncationLine, LastLine, HeadOf;
    if !Fits(text) {
      var n := Cut(text);
      TruncationLineMatches(|text| - n);
      NoFeedInTruncationLine(TruncationLine(|text| - n));
      LastPartOfJoin(text[..n], TruncationLine(|text| - n));
    }
  }

  lemma HeadAndLast(text: string)
    requires '\n' in text
    ensures text == HeadOf(text) + "\n" + LastLine(text)
  {
    var i := LastFeed(text, |text|);
    assert text == text[..i] + [text[i]] + text[i + 1..];
  }

  /** A sanitised text fits the cap, or it is one truncation line, alone or after a head that fits. */
  lemma SanitizedFits(text: string)
    ensures var s := Sanitize(text);
            || |s| <= MAX_CHUNK_TEXT_CHARS
            || IsTruncationLine(s)
            || (&& s == HeadOf(s) + "\n" + LastLine(s) && |HeadOf(s)| <= MAX_CHUNK_TEXT_CHARS
                && IsTruncationLine(LastLine(s)))
  {
    hide Clean, Cap, IsTruncationLine;
    var s := Sanitize(text);
    CapFits(Clean(text));
    if '\n' in s {
      HeadAndLast(s);
    } else {
      assert LastLine(s) == s;
    }
  }

  /** When the cap fires, the line says exactly how many characters of the text are gone, and the head is the
      text up to there, cut at the last line break after the first character and not beyond the limit, or at the
      limit when there is none. */
  lemma CapCountsOmitted(text: string) returns (head: string, omitted: nat)
    requires !Fits(Clean(text))
    ensures Sanitize(text) == head + "\n" + TruncationLine(omitted)
    ensures |head| + omitted == |Clean(text)|
    ensures head <= Clean(text) && 0 < |head| <= MAX_CHUNK_TEXT_CHARS
    ensures if exists i :: 1 <= i <= MAX_CHUNK_TEXT_CHARS && Clean(text)[i] == '\n'
            then Clean(text)[|head|] == '\n' && forall i :: |head| < i <= MAX_CHUNK_TEXT_CHARS ==> Clean(text)[i] != '\n'
            else |head| == MAX_CHUNK_TEXT_CHARS
  {
    hide Clean, TruncationLine, AlreadyCapped;
    var c := Clean(text);
    head, omitted := c[..Cut(c)], |c| - Cut(c);
  }

  // ----- what a removal leaves -----

  /** No shortcode starts anywhere in the line. */
  predicate NoCode(s: string) { forall i :: 0 <= i <= |s| ==> CodeLength(s[i..]) == 0 }

  lemma NoCodeTail(s: string)
    requires s != ""
    ensures NoCode(s) <==> CodeLength(s) == 0 && NoCode(s[1..])
  {
    hide CodeLength;
    assert s[0..] == s;
    assert forall i :: 1 <= i <= |s| ==> s[i..] == s[1..][i - 1..];
    assert forall i :: 0 <= i <= |s| - 1 ==> s[1..][i..] == s[i + 1..];
  }

  /** Removing shortcodes shortens the line, unless there is none. */
  lemma {:induction false} SubShrinks(s: string)
    ensures |Sub(s)| <= |s| && (|Sub(s)| == |s| ==> NoCode(s))
    decreases |s|
  {
    hide CodeLength, NoCode;
    if s == "" {
      assert NoCode("") by { NoBraceNoCode(""); }
    } else if s[0] == ' ' && CodeLength(s[1..]) > 0 {
      SubShrinks(SkipBlank(s[1 + CodeLength(s[1..])..]));
    } else if CodeLength(s) > 0 {
      SubShrinks(SkipBlank(s[CodeLength(s)..]));
    } else {
      SubShrinks(s[1..]);
      NoCodeTail(s);
    }
  }

  lemma NoBraceNoCode(s: string)
    requires !HasBraces(s)
    ensures NoCode(s)
  {
    forall i | 0 <= i <= |s| ensures CodeLength(s[i..]) == 0 {
      assert |s[i..]| < 3 || (s[i..][0] == s[i] && s[i..][1] == s[i + 1]);
    }
  }

  lemma {:induction false} SubKeeps(s: string)
    requires NoCode(s)
    ensures Sub(s) == s
  {
    hide CodeLength, NoCode;
    if s != "" {
      NoCodeTail(s);
      if |s| > 1 { NoCodeTail(s[1..]); } else { assert s[1..] == ""; }
      assert CodeLength(s[1..]) == 0;
      SubKeeps(s[1..]);
      assert s == [s[0]] + s[1..];
    }
  }

  /** A line is left alone exactly when it holds no shortcode. */
  lemma SubFixed(s: string)
    ensures Sub(s) == s <==> NoCode(s)
  {
    hide NoCode, Sub;
    SubShrinks(s);
    if NoCode(s) { SubKeeps(s); }
  }

  lemma {:induction false} SubAddsNothing(s: string, c: char)
    requires c !in s
    ensures c !in Sub(s)
    decreases |s|
  {
    hide CodeLength;
    if s == "" {
    } else if s[0] == ' ' && CodeLength(s[1..]) > 0 {
      SubAddsNothing(SkipBlank(s[1 + CodeLength(s[1..])..]), c);
    } else if CodeLength(s) > 0 {
      SubAddsNothing(SkipBlank(s[CodeLength(s)..]), c);
    } else {
      SubAddsNothing(s[1..], c);
    }
  }

  /** No line holds the character. */
  predicate NoneHolds(lines: seq<string>, c: char) { forall l :: l in lines ==> c !in l }

  lemma {:induction false} StripProseAddsNothing(prose: seq<string>, c: char)
    requires NoneHolds(prose, c)
    ensures NoneHolds(StripProse(prose), c)
  {
    hide Sub, IsBlankLine;
    if prose != [] {
      SubAddsNothing(prose[0], c);
      assert NoneHolds(prose[1..], c);
      StripProseAddsNothing(prose[1..], c);
    }
  }

  lemma CleanLinesAddNothing(lines: seq<string>, c: char)
    requires NoneHolds(lines, c)
    ensures NoneHolds(CleanLines(lines), c)
  {
    hide StripProse;
    StripProseAddsNothing(lines[..Boundary(lines)], c);
  }

  lemma {:induction false} JoinHolds(lines: seq<string>, c: char)
    requires c != '\n'
    ensures NoneHolds(lines, c) <==> c !in Join("\n", lines)
  {
    if |lines| == 1 {
      assert lines == [lines[0]];
    } else if lines != [] {
      JoinHolds(lines[1..], c);
      assert lines == [lines[0]] + lines[1..];
    }
  }

  lemma CleanAddsNothing(text: string, c: char)
    requires c != '\n' && c !in RemoveInvisible(text)
    ensures c !in Clean(text)
  {
    hide CleanLines, NoneHolds, Lines, Join, RemoveInvisible;
    var visible := RemoveInvisible(text);
    if HasBraces(visible) {
      JoinOfLines(visible);
      JoinHolds(Lines(visible), c);
      CleanLinesAddNothing(Lines(visible), c);
      JoinHolds(CleanLines(Lines(visible)), c);
    }
  }

  lemma CleanIsVisible(text: string)
    ensures AllVisible(Clean(text))
  {
    hide Clean, RemoveInvisible;
    RemoveInvisibleIs(text);
    forall c | c in Clean(text) ensures !IsInvisible(c) {
      if c != '\n' && c !in RemoveInvisible(text) { CleanAddsNothing(text, c); }
    }
  }

  lemma SanitizedIsVisible(text: string)
    ensures AllVisible(Sanitize(text))
  {
    hide Clean, TruncationLine, AlreadyCapped, IsInvisible;
    var c := Clean(text);
    CleanIsVisible(text);
    if !Fits(c) {
      var line := TruncationLine(|c| - Cut(c));
      TruncationLineMatches(|c| - Cut(c));
      TruncationLineIsVisible(line);
      assert !IsInvisible('\n') by { FeedIsVisible(); }
      assert forall x :: x in c[..Cut(c)] ==> x in c;
    }
  }

  lemma FeedIsVisible()
    ensures !IsInvisible('\n')
  {
  }

  // ----- sanitising twice -----

  /** No shortcode stands in the prose: the lines before the first `Example:` line. */
  predicate ProseIsClean(text: string) {
    forall i :: 0 <= i < Boundary(Lines(text)) ==> NoCode(Lines(text)[i])
  }

  lemma StripProseIsNoLonger(prose: seq<string>)
    ensures |StripProse(prose)| <= |prose|
  {
  }

  lemma {:induction false} StripProseFixed(prose: seq<string>)
    ensures StripProse(prose) == prose <==> forall i :: 0 <= i < |prose| ==> NoCode(prose[i])
  {
    hide Sub, NoCode, IsBlankLine;
    if prose != [] {
      SubFixed(prose[0]);
      StripProseIsNoLonger(prose[1..]);
      StripProseFixed(prose[1..]);
      assert forall i :: 0 <= i < |prose| - 1 ==> prose[1..][i] == prose[i + 1];
      if StripProse(prose) == prose {
        assert StripProse(prose) == [Sub(prose[0])] + StripProse(prose[1..]);
      }
    }
  }

  lemma CleanLinesFixed(lines: seq<string>)
    ensures CleanLines(lines) == lines <==> forall i :: 0 <= i < Boundary(lines) ==> NoCode(lines[i])
  {
    hide NoCode, StripProse, Boundary;
    var b := Boundary(lines);
    StripProseFixed(lines[..b]);
    assert lines == lines[..b] + lines[b..];
    if CleanLines(lines) == lines { Cancel(StripProse(lines[..b]), lines[..b], lines[b..]); }
  }

  lemma Cancel(a: seq<string>, b: seq<string>, tail: seq<string>)
    requires a + tail == b + tail
    ensures a == b
  {
    assert |a| == |b| && (a + tail)[..|a|] == (b + tail)[..|a|];
  }

  lemma {:induction false} PartBracesJoin(lines: seq<string>, i: nat)
    requires i < |lines| && HasBraces(lines[i])
    ensures HasBraces(Join("\n", lines))
  {
    if |lines| > 1 {
      var rest := Join("\n", lines[1..]);
      var text := lines[0] + "\n" + rest;
      if i == 0 {
        var k :| 0 <= k < |lines[0]| - 1 && lines[0][k] == '{' && lines[0][k + 1] == '{';
        assert text[k] == '{' && text[k + 1] == '{';
      } else {
        PartBracesJoin(lines[1..], i - 1);
        var k :| 0 <= k < |rest| - 1 && rest[k] == '{' && rest[k + 1] == '{';
        var m := k + |lines[0]| + 1;
        assert text[m] == rest[k] && text[m + 1] == rest[k + 1];
      }
    }
  }

  lemma NoBracesIsClean(text: string)
    requires !HasBraces(text)
    ensures ProseIsClean(text)
  {
    hide HasBraces, NoCode, Lines, Boundary;
    var lines := Lines(text);
    forall i | 0 <= i < |lines| ensures NoCode(lines[i]) {
      JoinOfLines(text);
      if HasBraces(lines[i]) { PartBracesJoin(lines, i); }
      NoBraceNoCode(lines[i]);
    }
  }

  /** Cleaning leaves a visible text alone exactly when its prose holds no shortcode. */
  lemma CleanFixed(text: string)
    requires AllVisible(text)
    ensures Clean(text) == text <==> ProseIsClean(text)
  {
    hide HasBraces, NoCode, Lines, Boundary, CleanLines, AllVisible, Join;
    RemoveInvisibleIs(text);
    var lines := Lines(text);
    if HasBraces(text) {
      JoinOfLines(text);
      CleanLinesFixed(lines);
      if Clean(text) == text { CleanedLinesAre(text); }
    } else {
      NoBracesIsClean(text);
    }
  }

  /** The lines of a cleaned text that is not empty are the cleaned lines. */
  lemma CleanedLinesAre(text: string)
    requires Join("\n", CleanLines(Lines(text))) == text && HasBraces(text)
    ensures CleanLines(Lines(text)) == Lines(text)
  {
    hide CleanLines;
    CleanLinesAddNothing(Lines(text), '\n');
    assert CleanLines(Lines(text)) != [];
    LinesOfJoin(CleanLines(Lines(text)));
  }

  // ----- cleaning keeps a text within the cap -----

  /** The total length of the lines, one line feed each. */
  function Weight(lines: seq<string>): nat {
    if lines == [] then 0 else |lines[0]| + 1 + Weight(lines[1..])
  }

  lemma {:induction false} JoinWeighs(lines: seq<string>)
    ensures |Join("\n", lines)| == if lines == [] then 0 else Weight(lines) - 1
  {
    if |lines| > 1 { JoinWeighs(lines[1..]); }
  }

  lemma WeightOfCons(line: string, rest: seq<string>)
    ensures Weight([line] + rest) == |line| + 1 + Weight(rest)
  {
    assert ([line] + rest)[1..] == rest;
  }

  lemma {:induction false} StripProseLightens(prose: seq<string>, code: seq<string>)
    ensures Weight(StripProse(prose) + code) <= Weight(prose + code)
  {
    hide Sub, NoCode, IsBlankLine, Weight;
    if prose == [] {
      assert [] + code == code;
    } else {
      StripProseLightens(prose[1..], code);
      SubShrinks(prose[0]);
      var rest := StripProse(prose[1..]);
      assert prose + code == [prose[0]] + (prose[1..] + code);
      WeightOfCons(prose[0], prose[1..] + code);
      Assoc([Sub(prose[0])], rest, code);
      WeightOfCons(Sub(prose[0]), rest + code);
      assert [] + rest == rest;
    }
  }

  lemma CleanLinesShorter(lines: seq<string>)
    ensures |Join("\n", CleanLines(lines))| <= |Join("\n", lines)|
  {
    hide StripProse, Boundary, Join, Weight;
    var b := Boundary(lines);
    StripProseLightens(lines[..b], lines[b..]);
    assert lines == lines[..b] + lines[b..];
    JoinWeighs(lines);
    JoinWeighs(CleanLines(lines));
    if CleanLines(lines) != [] { StripProseIsNoLonger(lines[..b]); }
  }

  lemma {:induction false} StripProseKeepsLast(prose: seq<string>, last: string)
    requires NoCode(last)
    ensures StripProse(prose + [last]) == StripProse(prose) + [last]
  {
    hide Sub, NoCode, IsBlankLine;
    if prose == [] {
      SubFixed(last);
      assert [] + [last] == [last] && [last][1..] == [] && StripProse([]) == [];
    } else {
      StripProseKeepsLast(prose[1..], last);
      assert (prose + [last])[1..] == prose[1..] + [last];
    }
  }

  lemma {:induction false} BoundaryOfLonger(lines: seq<string>, last: string)
    requires last != EXAMPLE
    ensures Boundary(lines + [last]) == if Boundary(lines) < |lines| then Boundary(lines) else |lines| + 1
  {
    if lines == [] {
      assert ([] + [last])[1..] == [];
    } else {
      BoundaryOfLonger(lines[1..], last);
      assert (lines + [last])[1..] == lines[1..] + [last];
    }
  }

  lemma CleanLinesKeepLast(lines: seq<string>, last: string)
    requires NoCode(last) && last != EXAMPLE
    ensures CleanLines(lines + [last]) == CleanLines(lines) + [last]
  {
    hide NoCode, StripProse, Boundary;
    BoundaryOfLonger(lines, last);
    var b, longer := Boundary(lines), lines + [last];
    if b < |lines| {
      assert longer[..b] == lines[..b] && longer[b..] == lines[b..] + [last];
    } else {
      StripProseKeepsLast(lines, last);
      assert lines[..b] == lines && lines[b..] == [] && longer[..b + 1] == longer && longer[b + 1..] == [];
    }
  }

  lemma LinesOfCapped(text: string)
    requires '\n' in text && IsTruncationLine(LastLine(text))
    ensures Lines(text) == Lines(HeadOf(text)) + [LastLine(text)]
  {
    hide IsTruncationLine, HeadOf, LastLine;
    HeadAndLast(text);
    NoFeedInTruncationLine(LastLine(text));
    LinesOfAppended(HeadOf(text), LastLine(text));
  }

  lemma JoinOne(line: string)
    ensures Join("\n", [line]) == line
  {
  }

  lemma LastLineOfOne(text: string)
    requires '\n' !in text
    ensures HeadOf(text) == "" && LastLine(text) == text
  {
    assert LastFeed(text, |text|) == -1;
  }

  /** The last line of a capped text survives the cleaning, and the head before it only gets shorter. */
  lemma CleanKeepsCapped(text: string)
    requires AllVisible(text) && AlreadyCapped(text)
    ensures AlreadyCapped(Clean(text))
  {
    hide CleanLines, AllVisible, IsTruncationLine, HeadOf, LastLine, NoCode, Lines, Join;
    RemoveInvisibleIs(text);
    var last := LastLine(text);
    NoFeedInTruncationLine(last);
    if HasBraces(text) {
      if '\n' !in text { LastLineOfOne(text); }
      assert '\n' in text;
      LinesOfCapped(text);
      NoBraceNoCode(last);
      CleanLinesKeepLast(Lines(HeadOf(text)), last);
      CleanLinesShorter(Lines(HeadOf(text)));
      JoinOfLines(HeadOf(text));
      LastOfJoin(CleanLines(Lines(HeadOf(text))), last);
    }
  }

  lemma LastOfJoin(lines: seq<string>, last: string)
    requires '\n' !in last
    ensures LastLine(Join("\n", lines + [last])) == last
    ensures HeadOf(Join("\n", lines + [last])) == Join("\n", lines)
  {
    hide HeadOf, LastLine, Join;
    JoinOne(last);
    if lines == [] {
      assert [] + [last] == [last];
      LastLineOfOne(last);
      assert Join("\n", lines) == "" by { JoinNone(); }
    } else {
      JoinAppend("\n", lines, [last]);
      LastPartOfJoin(Join("\n", lines), last);
    }
  }

  lemma JoinNone()
    ensures Join("\n", []) == ""
  {
  }

  lemma CleanKeepsFits(text: string)
    requires AllVisible(text) && Fits(text)
    ensures Fits(Clean(text))
  {
    hide CleanLines, AllVisible, AlreadyCapped, Lines, Join, HasBraces;
    if AlreadyCapped(text) {
      CleanKeepsCapped(text);
    } else {
      RemoveInvisibleIs(text);
      CleanLinesShorter(Lines(text));
      JoinOfLines(text);
    }
  }

  /** Exactly the texts that sanitising leaves alone. */
  lemma FixedPoints(text: string)
    ensures Sanitize(text) == text <==> AllVisible(text) && ProseIsClean(text) && Fits(text)
  {
    hide Clean, AllVisible, Fits, ProseIsClean, Cap;
    if Sanitize(text) == text {
      SanitizedIsVisible(text);
      CapFits(Clean(text));
    }
    if AllVisible(text) && Fits(text) {
      CleanKeepsFits(text);
      CapFits(Clean(text));
      CleanFixed(text);
    }
  }

  /** Sanitising twice equals sanitising once when, and only when, no shortcode is left in the prose. */
  lemma SanitizeTwice(text: string)
    ensures Sanitize(Sanitize(text)) == Sanitize(text) <==> ProseIsClean(Sanitize(text))
  {
    hide Clean, AllVisible, Fits, ProseIsClean, Cap;
    SanitizedIsVisible(text);
    CapFits(Clean(text));
    FixedPoints(Sanitize(text));
  }

  // ----- no new shortcode in the cleaned text -----

  lemma CodeOfPrefix(s: string, n: nat)
    requires n <= |s| && CodeLength(s[..n]) > 0
    ensures CodeLength(s) > 0
  {
    var mark := if s[2] == '<' then '>' else '%';
    var c := FindClose(s[..n], 3, mark);
    assert ClosesAt(s, c, mark);
  }

  lemma NoCodeOfPrefix(s: string, n: nat)
    requires n <= |s| && NoCode(s)
    ensures NoCode(s[..n])
  {
    hide CodeLength;
    forall i | 0 <= i <= n ensures CodeLength(s[..n][i..]) == 0 {
      assert s[..n][i..] == s[i..][..n - i];
      if CodeLength(s[i..][..n - i]) > 0 { CodeOfPrefix(s[i..], n - i); }
    }
  }

  /** Some whole first lines, then a prefix of the next. */
  predicate IsCutOf(p: seq<string>, q: seq<string>) {
    0 < |p| <= |q| && p[..|p| - 1] == q[..|p| - 1] && p[|p| - 1] <= q[|p| - 1]
  }

  /** The lines of a prefix are a cut of the lines. */
  lemma {:induction false} LinesOfPrefix(s: string, n: nat)
    requires n <= |s|
    ensures IsCutOf(Lines(s[..n]), Lines(s))
  {
    if n == 0 {
      assert s[..0] == "";
    } else {
      assert s[..n][1..] == s[1..][..n - 1];
      LinesOfPrefix(s[1..], n - 1);
      CutOfCons(s[0], Lines(s[1..][..n - 1]), Lines(s[1..]));
    }
  }

  lemma CutOfCons(c: char, p: seq<string>, q: seq<string>)
    requires IsCutOf(p, q)
    ensures IsCutOf([""] + p, [""] + q)
    ensures IsCutOf([[c] + p[0]] + p[1..], [[c] + q[0]] + q[1..])
  {
    var k := |p| - 1;
    assert ([""] + p)[..k + 1] == [""] + p[..k] && ([""] + q)[..k + 1] == [""] + q[..k];
    if k > 0 {
      assert p[0] == p[..k][0] && q[0] == q[..k][0];
      assert ([[c] + p[0]] + p[1..])[..k] == [[c] + p[0]] + p[..k][1..];
      assert ([[c] + q[0]] + q[1..])[..k] == [[c] + q[0]] + q[..k][1..];
    }
  }

  lemma BoundaryIs(lines: seq<string>, b: nat)
    requires b < |lines| && lines[b] == EXAMPLE
    ensures Boundary(lines) <= b
  {
  }

  /** Lists that agree on their first k lines have the same boundary, if it is among them. */
  lemma BoundaryAgrees(lines: seq<string>, q: seq<string>, k: nat)
    requires k <= |lines| && k <= |q| && lines[..k] == q[..k]
    ensures Boundary(q) < k ==> Boundary(lines) <= Boundary(q)
  {
    hide Boundary;
    if Boundary(q) < k {
      assert lines[Boundary(q)] == lines[..k][Boundary(q)] == q[Boundary(q)];
      BoundaryIs(lines, Boundary(q));
    }
  }

  lemma CleanPrefixLines(p: seq<string>, q: seq<string>, last: string)
    requires IsCutOf(p, q) && NoCode(last)
    requires forall i :: 0 <= i < Boundary(q) ==> NoCode(q[i])
    ensures forall i :: 0 <= i < Boundary(p + [last]) ==> NoCode((p + [last])[i])
  {
    hide NoCode, Boundary;
    var k, lines := |p| - 1, p + [last];
    assert lines[..k] == p[..k];
    BoundaryAgrees(lines, q, k);
    assert forall i :: 0 <= i < k ==> lines[i] == p[..k][i] == q[i];
    forall i | 0 <= i < Boundary(lines) ensures NoCode(lines[i]) {
      if i == k { CleanLastPrefix(p, q); }
    }
  }

  lemma NoBraceInMarker(s: string)
    requires s <= EXAMPLE
    ensures !HasBraces(s)
  {
    assert forall j :: 0 <= j < |EXAMPLE| ==> EXAMPLE[j] != '{';
  }

  lemma CleanLastPrefix(p: seq<string>, q: seq<string>)
    requires IsCutOf(p, q) && |p| - 1 <= Boundary(q)
    requires forall i :: 0 <= i < Boundary(q) ==> NoCode(q[i])
    ensures NoCode(p[|p| - 1])
  {
    hide NoCode, Boundary;
    var k := |p| - 1;
    if k == Boundary(q) {
      NoBraceInMarker(p[k]);
      NoBraceNoCode(p[k]);
    } else {
      NoCodeOfPrefix(q[k], |p[k]|);
      assert p[k] == q[k][..|p[k]|];
    }
  }

  lemma SanitizeTwiceOfCleanProse(text: string)
    requires ProseIsClean(Clean(text))
    ensures Sanitize(Sanitize(text)) == Sanitize(text)
  {
    hide Clean, NoCode, Lines, Boundary, TruncationLine, AlreadyCapped, Join;
    var c := Clean(text);
    if !Fits(c) {
      var n := Cut(c);
      var line := TruncationLine(|c| - n);
      TruncationLineMatches(|c| - n);
      NoFeedInTruncationLine(line);
      NoBraceNoCode(line);
      LinesOfPrefix(c, n);
      CleanPrefixLines(Lines(c[..n]), Lines(c), line);
      LinesOfAppended(c[..n], line);
    }
    SanitizeTwice(text);
  }

  lemma LinesOfAppended(head: string, last: string)
    requires '\n' !in last
    ensures Lines(head + "\n" + last) == Lines(head) + [last]
  {
    hide Join;
    JoinOfLines(head);
    JoinOne(last);
    JoinAppend("\n", Lines(head), [last]);
    LinesOfJoin(Lines(head) + [last]);
  }

  // ----- the docstring's claim, exactly, from the text that is sanitised -----

  /** The lines the shortcodes are removed from. */
  function ProseOf(text: string): seq<string> {
    var lines := Lines(RemoveInvisible(text));
    lines[..Boundary(lines)]
  }

  /** Up to and with the first line that becomes an `Example:` line, removal leaves no shortcode in any. */
  predicate RemovalIsClean(prose: seq<string>) {
    forall i :: 0 <= i < |prose| && NoExampleBefore(prose, i) ==> NoCode(Sub(prose[i]))
  }

  predicate NoExampleBefore(prose: seq<string>, i: nat)
    requires i <= |prose|
  {
    forall j :: 0 <= j < i ==> Sub(prose[j]) != EXAMPLE
  }

  /** The same for the part of the cleaned prose that stands in its first `room` characters. */
  predicate RemovalIsCleanWithin(prose: seq<string>, room: nat) {
    prose == [] ||
    var s := Sub(prose[0]);
    if s != prose[0] && IsBlankLine(s) then RemovalIsCleanWithin(prose[1..], room)
    else if room <= |s| then NoCode(s[..room])
    else NoCode(s) && (s == EXAMPLE || RemovalIsCleanWithin(prose[1..], room - |s| - 1))
  }

  /** No shortcode in the lines before the first `Example:` line. */
  predicate ProseLinesClean(lines: seq<string>) {
    forall i :: 0 <= i < Boundary(lines) ==> NoCode(lines[i])
  }

  lemma ProseLinesCleanCons(line: string, rest: seq<string>)
    ensures ProseLinesClean([line] + rest) <==> line == EXAMPLE || (NoCode(line) && ProseLinesClean(rest))
  {
    hide NoCode;
    var lines := [line] + rest;
    assert lines[1..] == rest;
    assert forall i :: 0 <= i < |rest| ==> lines[i + 1] == rest[i];
    if line != EXAMPLE && ProseLinesClean(lines) {
      forall i | 0 <= i < Boundary(rest) ensures NoCode(rest[i]) { assert NoCode(lines[i + 1]); }
      assert NoCode(lines[0]);
    }
    if line != EXAMPLE && NoCode(line) && ProseLinesClean(rest) {
      forall i | 0 <= i < Boundary(lines) ensures NoCode(lines[i]) { if i > 0 { assert NoCode(rest[i - 1]); } }
    }
  }

  lemma ExampleHasNoCode()
    ensures NoCode(EXAMPLE) && !IsBlankLine(EXAMPLE)
  {
    NoBraceInMarker(EXAMPLE);
    NoBraceNoCode(EXAMPLE);
    StripKeeps(EXAMPLE, IsSpace);
  }

  lemma BlankHasNoCode(s: string)
    requires IsBlankLine(s)
    ensures NoCode(s) && s != EXAMPLE
  {
    StripEmpty(s, IsSpace);
    NoBraceNoCode(s);
    ExampleHasNoCode();
  }

  lemma NothingIsClean()
    ensures ProseLinesClean([]) && ProseLinesClean([""]) && RemovalIsClean([])
  {
    NoBraceNoCode("");
  }

  /** Code begins with an `Example:` line. */
  predicate IsCodePart(code: seq<string>) { code == [] || code[0] == EXAMPLE }

  lemma CodePartIsClean(code: seq<string>)
    requires IsCodePart(code)
    ensures ProseLinesClean(code)
  {
  }

  lemma NoExampleBeforeCons(line: string, rest: seq<string>, i: nat)
    requires i <= |rest|
    ensures NoExampleBefore([line] + rest, i + 1) <==> Sub(line) != EXAMPLE && NoExampleBefore(rest, i)
    ensures i < |rest| ==> ([line] + rest)[i + 1] == rest[i]
  {
    hide Sub;
    var prose := [line] + rest;
    assert prose[0] == line && forall j :: 0 <= j < |rest| ==> prose[j + 1] == rest[j];
    if NoExampleBefore(prose, i + 1) {
      forall j | 0 <= j < i ensures Sub(rest[j]) != EXAMPLE { assert Sub(prose[j + 1]) != EXAMPLE; }
    }
  }

  lemma RemovalIsCleanCons(line: string, rest: seq<string>)
    ensures RemovalIsClean([line] + rest) <==> NoCode(Sub(line)) && (Sub(line) == EXAMPLE || RemovalIsClean(rest))
  {
    hide NoCode, Sub, NoExampleBefore;
    var prose := [line] + rest;
    forall i | 0 <= i < |rest|
      ensures NoExampleBefore(prose, i + 1) <==> Sub(line) != EXAMPLE && NoExampleBefore(rest, i)
      ensures prose[i + 1] == rest[i]
    {
      NoExampleBeforeCons(line, rest, i);
    }
    assert NoExampleBefore(prose, 0) by { NoneBefore(prose); }
    if RemovalIsClean(prose) {
      assert NoCode(Sub(prose[0]));
      if Sub(line) != EXAMPLE {
        forall i | 0 <= i < |rest| && NoExampleBefore(rest, i) ensures NoCode(Sub(rest[i])) {
          assert NoCode(Sub(prose[i + 1]));
        }
      }
    }
    if NoCode(Sub(line)) && (Sub(line) == EXAMPLE || RemovalIsClean(rest)) {
      forall i | 0 <= i < |prose| && NoExampleBefore(prose, i) ensures NoCode(Sub(prose[i])) {
        if i > 0 { NoExampleBeforeCons(line, rest, i - 1); }
      }
    }
  }

  lemma NoneBefore(prose: seq<string>)
    ensures NoExampleBefore(prose, 0)
  {
  }

  lemma {:induction false} CleanedProseIsClean(prose: seq<string>, code: seq<string>)
    requires IsCodePart(code)
    ensures ProseLinesClean(StripProse(prose) + code) <==> RemovalIsClean(prose)
  {
    hide NoCode, Sub, IsBlankLine, ProseLinesClean, RemovalIsClean;
    if prose == [] {
      assert StripProse(prose) + code == code;
      CodePartIsClean(code);
      NothingIsClean();
    } else {
      var s, rest := Sub(prose[0]), prose[1..];
      assert prose == [prose[0]] + rest;
      CleanedProseIsClean(rest, code);
      RemovalIsCleanCons(prose[0], rest);
      ExampleHasNoCode();
      if s != prose[0] && IsBlankLine(s) {
        assert StripProse(prose) == [] + StripProse(rest) == StripProse(rest);
        BlankHasNoCode(s);
      } else {
        Assoc([s], StripProse(rest), code);
        ProseLinesCleanCons(s, StripProse(rest) + code);
      }
    }
  }

  /** Cleaning is cleaning the lines, with braces or without. */
  lemma CleanIsJoin(text: string)
    ensures var lines := Lines(RemoveInvisible(text));
            && Clean(text) == Join("\n", CleanLines(lines))
            && (forall l :: l in CleanLines(lines) ==> '\n' !in l)
  {
    hide RemoveInvisible, HasBraces, NoCode, Boundary, CleanLines, Join;
    var visible := RemoveInvisible(text);
    var lines := Lines(visible);
    JoinOfLines(visible);
    CleanLinesAddNothing(lines, '\n');
    if !HasBraces(visible) {
      NoBracesIsClean(visible);
      CleanLinesFixed(lines);
    }
  }

  lemma LinesOfClean(text: string)
    ensures var cleaned := CleanLines(Lines(RemoveInvisible(text)));
            Lines(Clean(text)) == if cleaned == [] then [""] else cleaned
  {
    hide RemoveInvisible, HasBraces, Boundary, CleanLines, Clean, Join;
    CleanIsJoin(text);
    var cleaned := CleanLines(Lines(RemoveInvisible(text)));
    if cleaned == [] {
      JoinNone();
      assert Lines("") == [""];
    } else {
      LinesOfJoin(cleaned);
    }
  }

  lemma CodePartOf(lines: seq<string>)
    ensures IsCodePart(lines[Boundary(lines)..])
  {
  }

  /** The cleaned prose holds no shortcode exactly when the removal left none. */
  lemma CleanProseExactly(text: string)
    ensures ProseIsClean(Clean(text)) <==> RemovalIsClean(ProseOf(text))
  {
    hide Clean, NoCode, Sub, Boundary, RemoveInvisible, StripProse, RemovalIsClean;
    var lines := Lines(RemoveInvisible(text));
    LinesOfClean(text);
    CodePartOf(lines);
    CleanedProseIsClean(ProseOf(text), lines[Boundary(lines)..]);
    NothingIsClean();
  }

  /** Of a text whose cleaned form fits: sanitising twice equals once exactly when the removal leaves no
      shortcode in a line of the prose, up to the first line that it turns into an `Example:` line. */
  lemma SanitizeTwiceIsExact(text: string)
    requires Fits(Clean(text))
    ensures Sanitize(Sanitize(text)) == Sanitize(text) <==> RemovalIsClean(ProseOf(text))
  {
    hide Clean, Fits, Cap, RemovalIsClean, ProseIsClean, ProseOf;
    CapFits(Clean(text));
    SanitizeTwice(text);
    CleanProseExactly(text);
  }

  /** And then sanitising twice equals once with or without the cap. */
  lemma SanitizeTwiceAfterCleanRemoval(text: string)
    requires RemovalIsClean(ProseOf(text))
    ensures Sanitize(Sanitize(text)) == Sanitize(text)
  {
    hide *;
    CleanProseExactly(text);
    SanitizeTwiceOfCleanProse(text);
  }

  // ----- when the cap fires -----

  /** The lines of the first n characters of the joined lines. */
  function Take(lines: seq<string>, n: nat): seq<string>
    requires lines != []
  {
    if n <= |lines[0]| then [lines[0][..n]]
    else if |lines| == 1 then lines
    else [lines[0]] + Take(lines[1..], n - |lines[0]| - 1)
  }

  lemma {:induction false} LinesOfTake(lines: seq<string>, n: nat)
    requires lines != [] && (forall l :: l in lines ==> '\n' !in l) && n <= |Join("\n", lines)|
    ensures Lines(Join("\n", lines)[..n]) == Take(lines, n)
  {
    var all, first := Join("\n", lines), lines[0];
    if n <= |first| {
      assert all[..n] == first[..n] && first in lines && forall c :: c in first[..n] ==> c in first;
      SplitOnePart(first[..n], '\n');
    } else {
      var rest := Join("\n", lines[1..]);
      assert all == first + "\n" + rest;
      assert all[..n] == first + ['\n'] + rest[..n - |first| - 1];
      SplitFirstPart(first, '\n', rest[..n - |first| - 1]);
      LinesOfTake(lines[1..], n - |first| - 1);
    }
  }

  lemma {:induction false} NothingKeptIsClean(prose: seq<string>, room: nat)
    requires StripProse(prose) == []
    ensures RemovalIsCleanWithin(prose, room)
  {
    hide NoCode, Sub, IsBlankLine;
    if prose != [] { NothingKeptIsClean(prose[1..], room); }
  }

  lemma {:induction false} TakenProseIsClean(prose: seq<string>, code: seq<string>, n: nat)
    requires IsCodePart(code) && StripProse(prose) + code != []
    ensures ProseLinesClean(Take(StripProse(prose) + code, n)) <==> RemovalIsCleanWithin(prose, n)
  {
    hide NoCode, Sub, IsBlankLine, ProseLinesClean;
    if prose == [] {
      assert StripProse(prose) + code == code;
      TakenCodeIsClean(code, n);
    } else {
      var s, rest := Sub(prose[0]), prose[1..];
      if s != prose[0] && IsBlankLine(s) {
        assert StripProse(prose) == [] + StripProse(rest) == StripProse(rest);
        TakenProseIsClean(rest, code, n);
      } else {
        var after := StripProse(rest) + code;
        Assoc([s], StripProse(rest), code);
        TakeOfCons(s, after, n);
        if n <= |s| {
          OneLineClean(s[..n]);
        } else if after == [] {
          OneLineClean(s);
          NothingKeptIsClean(rest, n - |s| - 1);
        } else {
          TakenProseIsClean(rest, code, n - |s| - 1);
          ProseLinesCleanCons(s, Take(after, n - |s| - 1));
          ExampleHasNoCode();
        }
      }
    }
  }

  lemma TakeOfCons(s: string, after: seq<string>, n: nat)
    ensures Take([s] + after, n) ==
            if n <= |s| then [s[..n]] else if after == [] then [s] else [s] + Take(after, n - |s| - 1)
  {
    assert ([s] + after)[1..] == after;
  }

  lemma OneLineClean(s: string)
    ensures ProseLinesClean([s]) <==> NoCode(s)
  {
    hide NoCode;
    ProseLinesCleanCons(s, []);
    assert [s] + [] == [s];
    NothingIsClean();
    ExampleHasNoCode();
  }

  lemma TakenCodeIsClean(code: seq<string>, n: nat)
    requires code != [] && IsCodePart(code)
    ensures ProseLinesClean(Take(code, n))
  {
    if n <= |EXAMPLE| {
      assert EXAMPLE[..n] <= EXAMPLE;
      NoBraceInMarker(EXAMPLE[..n]);
      NoBraceNoCode(EXAMPLE[..n]);
    }
  }

  lemma ProseWithLast(lines: seq<string>, last: string)
    requires NoCode(last) && last != EXAMPLE
    ensures ProseLinesClean(lines + [last]) <==> ProseLinesClean(lines)
  {
    hide NoCode;
    BoundaryOfLonger(lines, last);
    var longer := lines + [last];
    assert forall i :: 0 <= i < |lines| ==> longer[i] == lines[i];
    if ProseLinesClean(longer) {
      forall i | 0 <= i < Boundary(lines) ensures NoCode(lines[i]) { assert NoCode(longer[i]); }
    }
  }

  /** When the cap fires: sanitising twice equals once exactly when the removal leaves no shortcode in the part of
      the prose that the cap keeps. */
  lemma SanitizeTwiceWhenCapped(text: string)
    requires !Fits(Clean(text))
    ensures Sanitize(Sanitize(text)) == Sanitize(text) <==> RemovalIsCleanWithin(ProseOf(text), Cut(Clean(text)))
  {
    hide Clean, NoCode, Sub, Boundary, RemoveInvisible, StripProse, Lines, Join, TruncationLine, AlreadyCapped, Take;
    var lines, c := Lines(RemoveInvisible(text)), Clean(text);
    var n := Cut(c);
    var line := TruncationLine(|c| - n);
    SanitizeTwice(text);
    TruncationLineMatches(|c| - n);
    NoFeedInTruncationLine(line);
    NoBraceNoCode(line);
    LinesOfAppended(c[..n], line);
    ProseWithLast(Lines(c[..n]), line);
    CleanIsJoin(text);
    CodePartOf(lines);
    assert CleanLines(lines) != [] by { JoinNone(); }
    LinesOfTake(CleanLines(lines), n);
    TakenProseIsClean(ProseOf(text), lines[Boundary(lines)..], n);
  }

  // ----- what a removal removes -----

  /** The text is one shortcode, from its first brace to its last. */
  predicate IsCode(code: string) { |code| >= 6 && CodeLength(code) == |code| }

  lemma CodeLengthStays(code: string, rest: string)
    requires IsCode(code)
    ensures CodeLength(code + rest) == |code|
  {
    var s, mark, n := code + rest, if code[2] == '<' then '>' else '%', |code| - 3;
    assert s[0] == code[0] && s[1] == code[1] && s[2] == code[2];
    assert FindClose(code, 3, mark) == n;
    assert forall k :: 0 <= k < |code| ==> s[k] == code[k];
    assert ClosesAt(s, n, mark);
    forall j | 3 <= j < n ensures !ClosesAt(s, j, mark) {
      assert !ClosesAt(code, j, mark);
      assert s[j] == code[j] && s[j + 1] == code[j + 1] && s[j + 2] == code[j + 2];
    }
    FindCloseIs(s, 3, n, mark);
  }

  lemma FindCloseIs(s: string, k: nat, n: nat, mark: char)
    requires k <= n < |s| && ClosesAt(s, n, mark)
    requires forall j :: k <= j < n ==> !ClosesAt(s, j, mark)
    ensures FindClose(s, k, mark) == n
  {
  }

  function Blank(there: bool): string { if there then " " else "" }

  /** A shortcode goes with the blank on each side, and one blank stays if there was any. */
  lemma {:induction false} SubRemovesCode(before: string, left: bool, code: string, right: bool, rest: string)
    requires '{' !in before && (before == "" || before[|before| - 1] != ' ')
    requires IsCode(code) && (!right ==> rest == "" || rest[0] != ' ')
    ensures Sub(before + (Blank(left) + (code + (Blank(right) + rest)))) == before + (Blank(left || right) + Sub(rest))
    decreases |before|
  {
    hide CodeLength, Sub, IsCode;
    var found := Blank(left) + (code + (Blank(right) + rest));
    if before != "" {
      SubRemovesCode(before[1..], left, code, right, rest);
      SubOverPlain(before, found);
      assert before == [before[0]] + before[1..];
      Assoc([before[0]], before[1..], Blank(left || right) + Sub(rest));
    } else {
      assert before + found == found;
      if left { SubAtBlank(code, right, rest); } else { SubAtCode(code, right, rest); }
    }
  }

  lemma NoCodeWithoutBrace(s: string)
    requires s != "" && s[0] != '{'
    ensures CodeLength(s) == 0
  {
  }

  lemma SubOverPlain(before: string, found: string)
    requires before != "" && '{' !in before && before[|before| - 1] != ' '
    ensures Sub(before + found) == [before[0]] + Sub(before[1..] + found)
  {
    hide CodeLength;
    var s, tail := before + found, before[1..] + found;
    assert s[1..] == tail;
    NoCodeWithoutBrace(s);
    if before[0] == ' ' {
      assert |before| > 1 && before[1] in before;
      assert tail[0] == before[1];
      NoCodeWithoutBrace(tail);
    }
  }

  lemma SubAtCode(code: string, right: bool, rest: string)
    requires IsCode(code) && (!right ==> rest == "" || rest[0] != ' ')
    ensures Sub(Blank(false) + (code + (Blank(right) + rest))) == Blank(right) + Sub(rest)
  {
    hide CodeLength, Sub;
    var after := Blank(right) + rest;
    CodeStartsWithBrace(code);
    CodeLengthStays(code, after);
    assert Blank(false) + (code + after) == code + after;
    assert (code + after)[|code|..] == after && SkipBlank(after) == rest;
    SubUnfold(code + after);
  }

  lemma SubAtBlank(code: string, right: bool, rest: string)
    requires IsCode(code) && (!right ==> rest == "" || rest[0] != ' ')
    ensures Sub(Blank(true) + (code + (Blank(right) + rest))) == " " + Sub(rest)
  {
    hide CodeLength, Sub;
    var after := Blank(right) + rest;
    var s := Blank(true) + (code + after);
    CodeLengthStays(code, after);
    assert s[0] == ' ' && s[1..] == code + after;
    assert s[1 + |code|..] == after && SkipBlank(after) == rest;
    SubUnfold(s);
  }

  lemma SubUnfold(s: string)
    requires s != "" && (s[0] != ' ' ==> CodeLength(s) > 0) && (s[0] == ' ' ==> CodeLength(s[1..]) > 0)
    ensures s[0] == ' ' ==> Sub(s) == " " + Sub(SkipBlank(s[1 + CodeLength(s[1..])..]))
    ensures s[0] != ' ' ==> var rest := s[CodeLength(s)..];
              Sub(s) == (if rest != "" && rest[0] == ' ' then " " else "") + Sub(SkipBlank(rest))
  {
    hide CodeLength, SkipBlank;
  }

  lemma CodeStartsWithBrace(code: string)
    requires IsCode(code)
    ensures code[0] == '{'
  {
  }

  /** From the `Example:` line on, nothing is removed but invisible characters. */
  lemma CodeAfterExampleIsKept(text: string) returns (prose: seq<string>)
    requires var lines := Lines(RemoveInvisible(text)); Boundary(lines) < |lines|
    ensures var lines := Lines(RemoveInvisible(text)); Lines(Clean(text)) == prose + lines[Boundary(lines)..]
  {
    hide RemoveInvisible, HasBraces, StripProse, Boundary, Join;
    var visible := RemoveInvisible(text);
    var lines := Lines(visible);
    var b := Boundary(lines);
    if HasBraces(visible) {
      prose := StripProse(lines[..b]);
      CleanLinesAddNothing(lines, '\n');
      assert CleanLines(lines) == prose + lines[b..] && lines[b..] != [];
      LinesOfJoin(CleanLines(lines));
    } else {
      prose := lines[..b];
      assert lines == lines[..b] + lines[b..];
    }
  }

  // ----- the docstring's claim fails -----

  /** With no line feed there is one line, and it is prose. */
  lemma SanitizeOneLine(line: string)
    requires '\n' !in line && AllVisible(line) && line != EXAMPLE && |line| <= MAX_CHUNK_TEXT_CHARS
    requires HasBraces(line) && |Sub(line)| <= MAX_CHUNK_TEXT_CHARS
    ensures Sanitize(line) == if Sub(line) != line && IsBlankLine(Sub(line)) then "" else Sub(line)
  {
    hide Sub, IsBlankLine, AllVisible, HasBraces, TruncationLine, AlreadyCapped, RemoveInvisible;
    RemoveInvisibleIs(line);
    SplitOnePart(line, '\n');
    assert Lines(line) == [line] && Boundary([line]) == 1 && [line][..1] == [line] && [line][1..] == [];
    assert StripProse([line][1..]) == [];
    assert StripProse([line]) == if Sub(line) != line && IsBlankLine(Sub(line)) then [] else [Sub(line)];
    JoinNone();
    JoinOne(Sub(line));
  }

  lemma SubOfBrace(rest: string)
    requires |rest| >= 2 && rest[1] == '{'
    ensures Sub("{" + rest) == "{" + Sub(rest)
  {
    assert ("{" + rest)[1..] == rest && ("{" + rest)[2] == '{';
    assert CodeLength("{" + rest) == 0;
  }

  lemma PlainIsVisible(s: string)
    requires forall c :: c in s ==> c as int < 0x80
    ensures AllVisible(s)
  {
  }

  lemma SubOfInner()
    ensures Sub("{{< b >}}") == ""
  {
    var code := "{{< b >}}";
    assert ClosesAt(code, 6, '>') && IsCode(code);
    SubRemovesCode("", false, code, false, "");
    assert "" + ("" + (code + ("" + ""))) == code && Sub("") == "";
  }

  lemma CodeA()
    ensures IsCode("{{< a >}}")
  {
    assert ClosesAt("{{< a >}}", 6, '>');
  }

  lemma SubOfMiddle()
    ensures Sub("{{< a >}}" + "< b >}}") == "< b >}}"
  {
    hide Sub, CodeLength, IsCode;
    var tail := "< b >}}";
    NoBraceNoCode(tail);
    SubKeeps(tail);
    CodeA();
    SubRemovesCode("", false, "{{< a >}}", false, tail);
    assert "" + ("" + ("{{< a >}}" + ("" + tail))) == "{{< a >}}" + tail;
    assert "" + ("" + tail) == tail;
  }

  lemma SubOfOuter()
    ensures Sub("{{{{< a >}}< b >}}") == "{{< b >}}"
  {
    hide Sub;
    var middle := "{{< a >}}" + "< b >}}";
    SubOfMiddle();
    SubOfBrace(middle);
    SubOfBrace("{" + middle);
    assert "{" + ("{" + middle) == "{{{{< a >}}< b >}}";
  }

  lemma SanitizeInner()
    ensures Sanitize("{{< b >}}") == ""
  {
    hide Sub, Sanitize, AllVisible, IsBlankLine;
    var inner := "{{< b >}}";
    SubOfInner();
    PlainIsVisible(inner);
    assert inner[0] == '{' && inner[1] == '{' && HasBraces(inner);
    SanitizeOneLine(inner);
    assert IsBlankLine("") by { BlankIsBlank(); }
  }

  lemma BlankIsBlank()
    ensures IsBlankLine("")
  {
    StripKeeps("", IsSpace);
  }

  lemma SanitizeOuter()
    ensures Sanitize("{{{{< a >}}< b >}}") == "{{< b >}}"
  {
    hide Sub, Sanitize, AllVisible, IsBlankLine;
    var outer := "{{{{< a >}}< b >}}";
    SubOfOuter();
    PlainIsVisible(outer);
    assert outer[0] == '{' && outer[1] == '{' && HasBraces(outer);
    assert !IsBlankLine("{{< b >}}") by { InnerIsNotBlank(); }
    SanitizeOneLine(outer);
  }

  lemma InnerIsNotBlank()
    ensures !IsBlankLine("{{< b >}}")
  {
    StripKeeps("{{< b >}}", IsSpace);
  }

  /** What is left of this text after one removal is a shortcode again, so a second pass changes it. */
  lemma RemovalCanLeaveAShortcode()
    ensures Sanitize("{{{{< a >}}< b >}}") == "{{< b >}}"
    ensures Sanitize("{{< b >}}") == ""
  {
    hide *;
    SanitizeInner();
    SanitizeOuter();
  }
}
