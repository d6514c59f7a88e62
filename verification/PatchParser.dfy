/** The diff reader of the secret scan (ops/secretscan.py): a line-by-line state machine over a unified
    diff that finds the added lines with their file and new line number. */
module PatchParser {
  import opened PyText

  datatype Mode = Outside | InHeader | InHunk   // "none", "header", "hunk"

  datatype Added = Added(path: string, line: nat, text: string)

  // ----- reading one line -----

  /** A path token without surrounding blanks, one pair of quotes, and one a/ or b/ prefix. */
  function CleanPath(token: string): string {
    var t := Strip(token, IsSpace);
    var u := if |t| >= 2 && t[0] == '"' && t[|t| - 1] == '"' then t[1..|t| - 1] else t;
    if StartsWith(u, "a/") || StartsWith(u, "b/") then u[2..] else u
  }

  predicate StartsFile(raw: string) {
    StartsWith(raw, "diff --git ") || StartsWith(raw, "diff --cc ") || StartsWith(raw, "diff --combined ")
  }

  /** What follows the first blank (or quote and blank) of s: the lazy `.*?"? ` of the header pattern. */
  function AfterFirstToken(s: string): (rest: seq<string>)
    ensures |rest| <= 1
  {
    if s == "" then []
    else if StartsWith(s, "\" ") then [s[2..]]
    else if s[0] == ' ' then [s[1..]]
    else AfterFirstToken(s[1..])
  }

  /** The path captured by the pattern `diff --git (?:"?a/.*?"?) (?:"?b/)?(.*?)"?$`, cleaned; empty when
      the pattern does not match. */
  function HeaderPath(raw: string): string {
    if StartsWith(raw, "diff --git ") then PathOfSides(raw[11..]) else ""
  }

  function PathOfSides(sides: string): string {
    if StartsWith(sides, "\"a/") then PathAfter(sides[3..])
    else if StartsWith(sides, "a/") then PathAfter(sides[2..])
    else ""
  }

  function PathAfter(s: string): string {
    var rest := AfterFirstToken(s);
    if rest == [] then "" else CleanPath(DropQuote(DropSide(rest[0])))
  }

  function DropSide(s: string): string {
    if StartsWith(s, "\"b/") then s[3..] else if StartsWith(s, "b/") then s[2..] else s
  }

  function DropQuote(s: string): string {
    if EndsWith(s, "\"") then s[..|s| - 1] else s
  }

  function LeadingDigits(s: string): (d: string)
    ensures forall c :: c in d ==> IsDigit(c)
    ensures d <= s
  {
    if s != "" && IsDigit(s[0]) then [s[0]] + LeadingDigits(s[1..]) else ""
  }

  /** The number after the first plus sign that a digit follows, or 0. */
  function HunkStart(raw: string): nat {
    if raw == "" then 0
    else if raw[0] == '+' && |raw| > 1 && IsDigit(raw[1]) then Value(LeadingDigits(raw[1..]))
    else HunkStart(raw[1..])
  }

  // ----- the state machine -----

  datatype Scan = Scan(mode: Mode, path: string, line: nat, added: seq<Added>, paths: seq<string>)

  const START := Scan(Outside, "", 0, [], [])

  function StepHeader(s: Scan, raw: string): Scan {
    if StartsWith(raw, "+++ ") then
      var target := CleanPath(raw[4..]);
      var path := if target == "/dev/null" then "" else target;
      s.(mode := InHeader, path := path,
         paths := if path != "" && path !in s.paths then s.paths + [path] else s.paths)
    else if StartsWith(raw, "@@") then s.(mode := InHunk, line := HunkStart(raw))
    else s.(mode := InHeader)
  }

  function StepHunk(s: Scan, raw: string): Scan {
    if StartsWith(raw, "@@") then s.(line := HunkStart(raw))
    else if StartsWith(raw, "+") then
      s.(line := s.line + 1,
         added := if s.path != "" then s.added + [Added(s.path, s.line, raw[1..])] else s.added)
    else s
  }

  function Step(s: Scan, raw: string): Scan {
    if StartsFile(raw) then
      var path := HeaderPath(raw);
      Scan(InHeader, path, s.line, s.added, if path != "" then s.paths + [path] else s.paths)
    else if s.mode == InHeader || (s.mode == Outside && StartsWith(raw, "+++ ")) then StepHeader(s, raw)
    else if s.mode == InHunk then StepHunk(s, raw)
    else s
  }

  function ScanLines(s: Scan, lines: seq<string>): Scan
    decreases |lines|
  {
    if lines == [] then s else ScanLines(Step(s, lines[0]), lines[1..])
  }

  lemma ScanNone(s: Scan)
    ensures ScanLines(s, []) == s
  {
  }

  lemma ScanOne(s: Scan, raw: string)
    ensures ScanLines(s, [raw]) == Step(s, raw)
  {
    hide Step;
    ScanNone(Step(s, raw));
    assert [raw][1..] == [];
  }

  lemma ScanCons(s: Scan, raw: string, rest: seq<string>)
    ensures ScanLines(s, [raw] + rest) == ScanLines(Step(s, raw), rest)
  {
    hide Step;
    assert ([raw] + rest)[1..] == rest;
  }

  lemma {:induction false} ScanAppend(s: Scan, a: seq<string>, b: seq<string>)
    ensures ScanLines(s, a + b) == ScanLines(ScanLines(s, a), b)
    decreases |a|
  {
    hide Step;
    if a == [] {
      assert a + b == b;
    } else {
      assert (a + b)[1..] == a[1..] + b;
      ScanAppend(Step(s, a[0]), a[1..], b);
    }
  }

  /** The body of the loop in parse_patch, over the five variables it updates. */
  method ReadLine(mode0: Mode, path0: string, line0: nat, added0: seq<Added>, paths0: seq<string>, raw: string)
    returns (mode: Mode, path: string, lineno: nat, added: seq<Added>, paths: seq<string>)
    ensures Scan(mode, path, lineno, added, paths) == Step(Scan(mode0, path0, line0, added0, paths0), raw)
  {
    hide CleanPath, HeaderPath, HunkStart, StartsFile;
    mode, path, lineno, added, paths := mode0, path0, line0, added0, paths0;
    if StartsFile(raw) {
      mode := InHeader;
      path := HeaderPath(raw);
      if path != "" { paths := paths + [path]; }
      return;
    }
    if mode == Outside && StartsWith(raw, "+++ ") { mode := InHeader; }
    if mode == InHeader {
      if StartsWith(raw, "+++ ") {
        var target := CleanPath(raw[4..]);
        path := if target == "/dev/null" then "" else target;
        if path != "" && path !in paths { paths := paths + [path]; }
      } else if StartsWith(raw, "@@") {
        mode := InHunk;
        lineno := HunkStart(raw);
      }
      return;
    }
    if mode == InHunk {
      if StartsWith(raw, "@@") {
        lineno := HunkStart(raw);
      } else if StartsWith(raw, "+") {
        if path != "" { added := added + [Added(path, lineno, raw[1..])]; }
        lineno := lineno + 1;
      }
    }
  }

  /** parse_patch: one loop over the lines. */
  method ParsePatch(patch: string) returns (added: seq<Added>, paths: seq<string>)
    ensures var end := ScanLines(START, Lines(patch)); added == end.added && paths == end.paths
  {
    hide Step;
    added, paths := [], [];
    var mode, path, lineno := Outside, "", 0;
    var lines := Lines(patch);
    for i := 0 to |lines|
      invariant Scan(mode, path, lineno, added, paths) == ScanLines(START, lines[..i])
    {
      assert lines[..i + 1] == lines[..i] + [lines[i]];
      ScanAppend(START, lines[..i], [lines[i]]);
      mode, path, lineno, added, paths := ReadLine(mode, path, lineno, added, paths, lines[i]);
    }
    assert lines[..|lines|] == lines;
  }

  // ----- abstract patches and how git prints them with -U0 -----

  datatype Change = Remove(text: string) | Add(text: string) | NoFinalNewline

  /** `span` is what stands after the minus sign, `rest` whatever follows the new start (count, function). */
  datatype Hunk = Hunk(span: string, start: nat, rest: string, changes: seq<Change>)

  /** One file section: extra header lines, hunks, and blank lines up to the next section. A deleted
      file has no target. The name of a file may be quoted, and is then what stands between the quotes. */
  datatype FileDiff = FileDiff(path: string, quoted: bool, deleted: bool, extra: seq<string>, hunks: seq<Hunk>, gap: nat)

  function RenderChange(c: Change): string {
    match c
    case Remove(text) => "-" + text
    case Add(text) => "+" + text
    case NoFinalNewline => "\\ No newline at end of file"
  }

  function RenderChanges(cs: seq<Change>): seq<string> {
    if cs == [] then [] else [RenderChange(cs[0])] + RenderChanges(cs[1..])
  }

  function HunkLine(h: Hunk): string {
    "@@ -" + h.span + " +" + Decimal(h.start) + h.rest
  }

  function RenderHunks(hs: seq<Hunk>): seq<string> {
    if hs == [] then [] else [HunkLine(hs[0])] + RenderChanges(hs[0].changes) + RenderHunks(hs[1..])
  }

  /** git ends a name that holds a blank with a tab, unless it is quoted. */
  function NameEnd(f: FileDiff): string { if ' ' in f.path && !f.quoted then "\t" else "" }

  function Named(side: string, f: FileDiff): string {
    if f.quoted then "\"" + side + f.path + "\"" else side + f.path
  }

  function SourceLine(f: FileDiff): string { "--- " + Named("a/", f) + NameEnd(f) }

  function TargetLine(f: FileDiff): string {
    "+++ " + if f.deleted then "/dev/null" else Named("b/", f) + NameEnd(f)
  }

  function FileLine(f: FileDiff): string { "diff --git " + Named("a/", f) + " " + Named("b/", f) }

  function RenderFile(f: FileDiff): seq<string> {
    [FileLine(f)] + f.extra
    + (if f.hunks == [] then [] else [SourceLine(f), TargetLine(f)] + RenderHunks(f.hunks))
    + Blanks(f.gap)
  }

  function RenderLines(patch: seq<FileDiff>): seq<string> {
    if patch == [] then [] else RenderFile(patch[0]) + RenderLines(patch[1..])
  }

  /** The patch text: every line ended by a line feed. */
  function Render(patch: seq<FileDiff>): string {
    Join("\n", RenderLines(patch) + [""])
  }

  // ----- what a reader should find -----

  function AddedByChanges(path: string, line: nat, cs: seq<Change>): seq<Added>
    decreases |cs|
  {
    if cs == [] then []
    else if cs[0].Add? then [Added(path, line, cs[0].text)] + AddedByChanges(path, line + 1, cs[1..])
    else AddedByChanges(path, line, cs[1..])
  }

  function AddedByHunks(path: string, hs: seq<Hunk>): seq<Added> {
    if hs == [] then [] else AddedByChanges(path, hs[0].start, hs[0].changes) + AddedByHunks(path, hs[1..])
  }

  /** Each added line of each file that still exists, numbered from its hunk's new start. */
  function AddedByPatch(patch: seq<FileDiff>): seq<Added> {
    if patch == [] then []
    else (if patch[0].deleted then [] else AddedByHunks(patch[0].path, patch[0].hunks)) + AddedByPatch(patch[1..])
  }

  function PathsOfPatch(patch: seq<FileDiff>): seq<string> {
    if patch == [] then [] else [patch[0].path] + PathsOfPatch(patch[1..])
  }

  // ----- what git guarantees about the pieces -----

  predicate OneLine(s: string) { '\n' !in s }

  /** Not empty, not the null device, and without a trailing blank if it stands without quotes. */
  predicate GoodPath(f: FileDiff) {
    f.path != "" && (f.quoted || !IsSpace(f.path[|f.path| - 1])) && f.path != "/dev/null" && OneLine(f.path)
  }

  predicate GoodChange(c: Change) { c.NoFinalNewline? || OneLine(c.text) }

  predicate GoodHunk(h: Hunk) {
    && OneLine(h.span) && '+' !in h.span
    && OneLine(h.rest) && (h.rest == "" || !IsDigit(h.rest[0]))
    && forall c :: c in h.changes ==> GoodChange(c)
  }

  predicate GoodExtra(l: string) {
    OneLine(l) && !StartsFile(l) && !StartsWith(l, "+++ ") && !StartsWith(l, "@@")
  }

  predicate GoodFile(f: FileDiff) {
    && GoodPath(f)
    && (forall l :: l in f.extra ==> GoodExtra(l))
    && (forall h :: h in f.hunks ==> GoodHunk(h))
  }

  predicate GoodPatch(patch: seq<FileDiff>) { forall f :: f in patch ==> GoodFile(f) }

  // ----- numbers -----

  lemma {:induction false} LeadingDigitsOf(digits: string, rest: string)
    requires forall c :: c in digits ==> IsDigit(c)
    requires rest == "" || !IsDigit(rest[0])
    ensures LeadingDigits(digits + rest) == digits
  {
    if digits == "" {
      assert digits + rest == rest;
    } else {
      assert digits[0] in digits && forall c :: c in digits[1..] ==> c in digits;
      assert (digits + rest)[1..] == digits[1..] + rest;
      LeadingDigitsOf(digits[1..], rest);
      assert digits == [digits[0]] + digits[1..];
    }
  }

  lemma {:induction false} HunkStartSkips(prefix: string, rest: string)
    requires '+' !in prefix
    ensures HunkStart(prefix + rest) == HunkStart(rest)
  {
    if prefix == "" {
      assert prefix + rest == rest;
    } else {
      assert prefix[0] in prefix && forall c :: c in prefix[1..] ==> c in prefix;
      assert (prefix + rest)[1..] == prefix[1..] + rest;
      HunkStartSkips(prefix[1..], rest);
    }
  }

  lemma NotAFileLine(raw: string)
    requires raw == "" || raw[0] != 'd'
    ensures !StartsFile(raw)
  {
  }

  lemma HunkLineShape(h: Hunk)
    ensures StartsWith(HunkLine(h), "@@") && !StartsWith(HunkLine(h), "+++ ") && !StartsFile(HunkLine(h))
  {
    assert HunkLine(h)[0] == '@' && HunkLine(h)[1] == '@';
    assert HunkLine(h)[..2] == "@@";
    NotAFileLine(HunkLine(h));
  }

  /** The new start of a hunk is read back from its header line. */
  lemma HunkLineReadsBack(h: Hunk)
    requires GoodHunk(h)
    ensures HunkStart(HunkLine(h)) == h.start
  {
    hide Decimal, HunkStart, LeadingDigits, Value;
    var digits := Decimal(h.start);
    DecimalIsDigits(h.start);
    var prefix, rest := "@@ -" + h.span + " ", digits + h.rest;
    assert HunkLine(h) == prefix + ("+" + rest);
    HunkStartSkips(prefix, "+" + rest);
    PlusReadsBack(digits, h.rest);
  }

  lemma PlusReadsBack(digits: string, rest: string)
    requires digits != "" && forall c :: c in digits ==> IsDigit(c)
    requires rest == "" || !IsDigit(rest[0])
    ensures HunkStart("+" + (digits + rest)) == Value(digits)
  {
    hide Value;
    LeadingDigitsOf(digits, rest);
    var s := "+" + (digits + rest);
    assert digits[0] in digits;
    assert s[1..] == digits + rest;
  }

  // ----- following the printed lines -----

  /** In a hunk every changed line is content, whatever its text looks like. */
  lemma {:induction false} ScanChanges(s: Scan, cs: seq<Change>)
    requires s.mode == InHunk
    ensures var end := ScanLines(s, RenderChanges(cs));
            && end.mode == InHunk && end.path == s.path && end.paths == s.paths
            && end.added == s.added + if s.path == "" then [] else AddedByChanges(s.path, s.line, cs)
    decreases |cs|
  {
    hide Step, ScanLines, RenderChange;
    ScanNone(s);
    if cs != [] {
      var raw, rest := RenderChange(cs[0]), cs[1..];
      ScanChange(s, cs[0]);
      ScanCons(s, raw, RenderChanges(rest));
      ScanChanges(Step(s, raw), rest);
      if cs[0].Add? { Assoc(s.added, [Added(s.path, s.line, cs[0].text)], AddedByChanges(s.path, s.line + 1, rest)); }
    }
  }

  lemma ScanChange(s: Scan, c: Change)
    requires s.mode == InHunk
    ensures Step(s, RenderChange(c)) ==
              if c.Add? then
                s.(line := s.line + 1,
                   added := if s.path != "" then s.added + [Added(s.path, s.line, c.text)] else s.added)
              else s
  {
    hide StartsFile;
    var raw := RenderChange(c);
    assert raw[0] == match c case Remove(_) => '-' case Add(_) => '+' case NoFinalNewline => '\\';
    NotAFileLine(raw);
    if c.Add? { assert raw[..1] == "+" && raw[1..] == c.text; }
  }

  lemma ScanHunkLine(s: Scan, h: Hunk)
    requires GoodHunk(h) && s.mode != Outside
    ensures ScanLines(s, [HunkLine(h)]) == s.(mode := InHunk, line := h.start)
  {
    hide HunkLine, StartsFile, HunkStart;
    HunkLineShape(h);
    HunkLineReadsBack(h);
    ScanOne(s, HunkLine(h));
  }

  lemma {:induction false} ScanHunks(s: Scan, hs: seq<Hunk>)
    requires s.mode == InHunk || (s.mode == InHeader && hs != [])
    requires forall h :: h in hs ==> GoodHunk(h)
    ensures var end := ScanLines(s, RenderHunks(hs));
            && end.mode == InHunk && end.path == s.path && end.paths == s.paths
            && end.added == s.added + if s.path == "" then [] else AddedByHunks(s.path, hs)
    decreases |hs|
  {
    hide Step, ScanLines, RenderChanges, HunkLine, AddedByChanges;
    ScanNone(s);
    if hs != [] {
      var h := hs[0];
      assert h in hs && forall x :: x in hs[1..] ==> x in hs;
      ScanHunkLine(s, h);
      var inHunk := s.(mode := InHunk, line := h.start);
      ScanAppend(s, [HunkLine(h)] + RenderChanges(h.changes), RenderHunks(hs[1..]));
      ScanAppend(s, [HunkLine(h)], RenderChanges(h.changes));
      ScanChanges(inHunk, h.changes);
      var after := ScanLines(inHunk, RenderChanges(h.changes));
      ScanHunks(after, hs[1..]);
      var first, rest := AddedByChanges(s.path, h.start, h.changes), AddedByHunks(s.path, hs[1..]);
      assert (s.added + first) + rest == s.added + (first + rest);
    }
  }

  lemma {:induction false} ScanExtra(s: Scan, extra: seq<string>)
    requires s.mode == InHeader && forall l :: l in extra ==> GoodExtra(l)
    ensures ScanLines(s, extra) == s
    decreases |extra|
  {
    hide StartsFile;
    if extra != [] {
      assert extra[0] in extra && forall l :: l in extra[1..] ==> l in extra;
      ScanExtra(s, extra[1..]);
    }
  }

  lemma {:induction false} ScanBlanks(s: Scan, n: nat)
    ensures ScanLines(s, Blanks(n)) == s
    decreases n
  {
    hide StartsFile;
    if n > 0 {
      NotAFileLine("");
      assert Blanks(n)[1..] == Blanks(n - 1);
      ScanBlanks(s, n - 1);
    }
  }

  lemma CleanTarget(f: FileDiff)
    requires GoodPath(f)
    ensures CleanPath(Named("b/", f) + NameEnd(f)) == f.path
  {
    hide IsSpace;
    var name := Named("b/", f);
    SpacesAndQuotes();
    if f.quoted {
      assert name + NameEnd(f) == name;
      StripKeeps(name, IsSpace);
      assert name[1..|name| - 1] == "b/" + f.path;
    } else {
      StripKeeps(name, IsSpace);
      if ' ' in f.path { StripIgnoresLast(name, '\t', IsSpace); } else { assert name + "" == name; }
      assert name[0] == 'b';
    }
  }

  lemma SpacesAndQuotes()
    ensures IsSpace('\t') && !IsSpace('"') && !IsSpace('b')
  {
  }

  /** The target line sets the path, and lists it when the header line did not. */
  lemma ScanTarget(s: Scan, f: FileDiff)
    requires s.mode == InHeader && GoodPath(f)
    ensures ScanLines(s, [SourceLine(f), TargetLine(f)]) ==
              s.(path := if f.deleted then "" else f.path,
                 paths := if f.deleted || f.path in s.paths then s.paths else s.paths + [f.path])
  {
    hide Step, SourceLine, TargetLine;
    var minus, plus := SourceLine(f), TargetLine(f);
    ScanMinus(s, f);
    ScanPlus(s, f);
    assert [minus, plus] == [minus] + [plus];
    ScanAppend(s, [minus], [plus]);
    ScanOne(s, minus);
    ScanOne(s, plus);
  }

  lemma ScanMinus(s: Scan, f: FileDiff)
    requires s.mode == InHeader
    ensures Step(s, SourceLine(f)) == s
  {
    hide StartsFile, NameEnd, Named;
    var minus := SourceLine(f);
    assert minus[0] == '-';
    NotAFileLine(minus);
  }

  lemma CleanNull()
    ensures CleanPath("/dev/null") == "/dev/null"
  {
    StripKeeps("/dev/null", IsSpace);
  }

  lemma ScanPlus(s: Scan, f: FileDiff)
    requires s.mode == InHeader && GoodPath(f)
    ensures Step(s, TargetLine(f)) ==
              s.(path := if f.deleted then "" else f.path,
                 paths := if f.deleted || f.path in s.paths then s.paths else s.paths + [f.path])
  {
    hide StartsFile, CleanPath, NameEnd, Named;
    var plus := TargetLine(f);
    assert plus[0] == '+' && plus[..4] == "+++ ";
    assert plus[4..] == if f.deleted then "/dev/null" else Named("b/", f) + NameEnd(f);
    NotAFileLine(plus);
    CleanTarget(f);
    CleanNull();
  }

  lemma ScanFileLine(s: Scan, f: FileDiff)
    ensures var head := HeaderPath(FileLine(f));
            ScanLines(s, [FileLine(f)]) ==
              Scan(InHeader, head, s.line, s.added, if head != "" then s.paths + [head] else s.paths)
  {
    hide HeaderPath, Named;
    assert FileLine(f)[..11] == "diff --git ";
    ScanOne(s, FileLine(f));
  }

  /** The paths one file section adds to the list. */
  function PathsSeen(paths: seq<string>, f: FileDiff): seq<string> {
    var head := HeaderPath(FileLine(f));
    var named := if head != "" then paths + [head] else paths;
    if f.hunks == [] || f.deleted || f.path in named then named else named + [f.path]
  }

  lemma ScanFile(s: Scan, f: FileDiff)
    requires GoodFile(f)
    ensures var end := ScanLines(s, RenderFile(f));
            && end.added == s.added + (if f.deleted then [] else AddedByHunks(f.path, f.hunks))
            && end.paths == PathsSeen(s.paths, f)
  {
    hide Step, RenderHunks, SourceLine, TargetLine, FileLine, Blanks, HeaderPath;
    var body := if f.hunks == [] then [] else [SourceLine(f), TargetLine(f)] + RenderHunks(f.hunks);
    ScanAppend(s, [FileLine(f)] + f.extra + body, Blanks(f.gap));
    ScanAppend(s, [FileLine(f)] + f.extra, body);
    ScanAppend(s, [FileLine(f)], f.extra);
    ScanFileLine(s, f);
    var headed := ScanLines(s, [FileLine(f)]);
    ScanExtra(headed, f.extra);
    if f.hunks != [] {
      ScanAppend(headed, [SourceLine(f), TargetLine(f)], RenderHunks(f.hunks));
      ScanTarget(headed, f);
      ScanHunks(ScanLines(headed, [SourceLine(f), TargetLine(f)]), f.hunks);
    }
    ScanBlanks(ScanLines(headed, body), f.gap);
  }

  lemma {:induction false} ScanPatchAdded(s: Scan, patch: seq<FileDiff>)
    requires GoodPatch(patch)
    ensures ScanLines(s, RenderLines(patch)).added == s.added + AddedByPatch(patch)
    decreases |patch|
  {
    hide Step, ScanLines, RenderFile, GoodFile, PathsSeen, AddedByHunks;
    ScanNone(s);
    if patch != [] {
      var f, rest := patch[0], patch[1..];
      assert f in patch && forall g :: g in rest ==> g in patch;
      ScanAppend(s, RenderFile(f), RenderLines(rest));
      ScanFile(s, f);
      ScanPatchAdded(ScanLines(s, RenderFile(f)), rest);
      Assoc(s.added, if f.deleted then [] else AddedByHunks(f.path, f.hunks), AddedByPatch(rest));
    }
  }

  // ----- the paths named by the header lines -----

  lemma {:induction false} FirstTokenEndsAtBlank(p: string, rest: string)
    requires ' ' !in p && '"' !in p
    ensures AfterFirstToken(p + " " + rest) == [rest]
  {
    var s := p + " " + rest;
    if p == "" {
      assert s[0] == ' ' && s[1..] == rest;
    } else {
      assert p[0] in p && forall c :: c in p[1..] ==> c in p;
      assert s[1..] == p[1..] + " " + rest;
      assert s[0] == p[0];
      FirstTokenEndsAtBlank(p[1..], rest);
    }
  }

  lemma HeaderPathOf(p: string)
    ensures HeaderPath("diff --git a/" + p + " b/" + p) == PathAfter(p + " b/" + p)
  {
    hide PathAfter;
    var sides := p + " b/" + p;
    var raw := "diff --git a/" + p + " b/" + p;
    assert raw == "diff --git " + ("a/" + sides);
    assert raw[..11] == "diff --git " && raw[11..] == "a/" + sides;
    PathOfPlainSides(sides);
  }

  lemma PathOfPlainSides(sides: string)
    ensures PathOfSides("a/" + sides) == PathAfter(sides)
  {
    hide PathAfter;
    assert ("a/" + sides)[0] == 'a' && ("a/" + sides)[..2] == "a/" && ("a/" + sides)[2..] == sides;
  }

  /** A path of a tree: no quote, no blank at either end, no final slash. */
  predicate TreePath(p: string) {
    p != "" && '"' !in p && !IsSpace(p[0]) && !IsSpace(p[|p| - 1]) && p[|p| - 1] != '/'
  }

  predicate HasSide(p: string) { StartsWith(p, "a/") || StartsWith(p, "b/") }

  lemma CleanUnquoted(t: string, p: string)
    requires Strip(t, IsSpace) == p && '"' !in p
    ensures CleanPath(t) == if HasSide(p) then p[2..] else p
  {
    if |p| >= 2 { assert p[0] in p; }
  }

  lemma UnquotedKeepsEnd(s: string)
    requires '"' !in s
    ensures DropQuote(s) == s
    ensures DropSide(s) == if StartsWith(s, "b/") then s[2..] else s
  {
    if s != "" { assert s[0] in s && s[|s| - 1] in s; }
  }

  lemma PathAfterPlain(p: string)
    requires TreePath(p) && ' ' !in p
    ensures PathAfter(p + " b/" + p) == if HasSide(p) then p[2..] else p
  {
    hide CleanPath, DropQuote, DropSide, AfterFirstToken;
    assert p + " b/" + p == p + " " + ("b/" + p);
    FirstTokenEndsAtBlank(p, "b/" + p);
    UnquotedKeepsEnd("b/" + p);
    assert ("b/" + p)[..2] == "b/" && ("b/" + p)[2..] == p;
    UnquotedKeepsEnd(p);
    StripKeeps(p, IsSpace);
    CleanUnquoted(p, p);
  }

  lemma StripIsLong(w: string, tail: string)
    requires w != "" && !IsSpace(w[|w| - 1]) && tail != "" && !IsSpace(tail[|tail| - 1])
    ensures |Strip(w + tail, IsSpace)| > |tail|
    ensures forall c :: c in Strip(w + tail, IsSpace) ==> c in w + tail
  {
    var i, j := StripIsPiece(w + tail, IsSpace);
    assert (w + tail)[|w| - 1] == w[|w| - 1];
    assert (w + tail)[|w + tail| - 1] == tail[|tail| - 1];
  }

  lemma AfterTheBlank(p: string, u: string, v: string)
    requires TreePath(p) && p == u + " " + v
    ensures v != "" && v[|v| - 1] == p[|p| - 1] && '"' !in u && '"' !in v
  {
    BlankIsSpace();
    assert forall c :: c in u || c in v ==> c in p;
    assert p[|p| - 1] == if v == "" then ' ' else v[|v| - 1];
  }

  lemma SideOfCapture(v: string, tail: string) returns (w: string)
    requires v != "" && v[|v| - 1] != '/' && '"' !in v && '"' !in tail && StartsWith(tail, " ")
    ensures DropSide(v + tail) == w + tail && '"' !in w
    ensures w != "" && w[|w| - 1] == v[|v| - 1]
  {
    hide DropSide;
    UnquotedKeepsEnd(v + tail);
    if StartsWith(v, "b/") {
      w := v[2..];
      assert (v + tail)[..2] == v[..2];
    } else {
      w := v;
      if |v| == 1 { assert (v + tail)[1] == ' '; } else { assert (v + tail)[..2] == v[..2]; }
    }
  }

  lemma CleanIsLong(w: string, tail: string)
    requires w != "" && !IsSpace(w[|w| - 1]) && tail != "" && !IsSpace(tail[|tail| - 1]) && '"' !in w && '"' !in tail
    ensures |CleanPath(DropQuote(w + tail))| >= |tail| - 1
  {
    hide CleanPath, DropQuote, DropSide, IsSpace;
    UnquotedKeepsEnd(w + tail);
    StripIsLong(w, tail);
    CleanUnquoted(w + tail, Strip(w + tail, IsSpace));
  }

  /** With a blank in the path the pattern captures too much. */
  lemma PathAfterBlank(p: string, u: string, v: string)
    requires TreePath(p) && p == u + " " + v && ' ' !in u
    ensures |PathAfter(p + " b/" + p)| > |p|
  {
    hide CleanPath, DropQuote, DropSide, AfterFirstToken, IsSpace;
    var tail := " b/" + p;
    AfterTheBlank(p, u, v);
    assert p + " b/" + p == u + " " + (v + tail);
    FirstTokenEndsAtBlank(u, v + tail);
    var w := SideOfCapture(v, tail);
    CleanIsLong(w, tail);
  }

  lemma BlankIsSpace()
    ensures IsSpace(' ')
  {
  }

  lemma {:induction false} SplitAtBlank(p: string) returns (u: string, v: string)
    requires ' ' in p
    ensures p == u + " " + v && ' ' !in u
  {
    if p[0] == ' ' {
      u, v := "", p[1..];
    } else {
      assert p == [p[0]] + p[1..];
      u, v := SplitAtBlank(p[1..]);
      u := [p[0]] + u;
    }
  }

  /** The header line of a file names its path exactly when the path has no blank in it and does not
      itself start like one of the two sides. */
  lemma HeaderPathIsExact(p: string)
    requires TreePath(p)
    ensures HeaderPath("diff --git a/" + p + " b/" + p) == p <==> ' ' !in p && !HasSide(p)
  {
    hide PathAfter, HeaderPath;
    HeaderPathOf(p);
    if ' ' in p {
      var u, v := SplitAtBlank(p);
      PathAfterBlank(p, u, v);
    } else {
      PathAfterPlain(p);
    }
  }

  // ----- other patches -----

  /** A combined diff starts a file too, which only its target line names. */
  lemma CombinedDiffStarts(s: Scan, raw: string)
    requires StartsWith(raw, "diff --cc ") || StartsWith(raw, "diff --combined ")
    ensures Step(s, raw) == Scan(InHeader, "", s.line, s.added, s.paths)
  {
    if StartsWith(raw, "diff --cc ") { assert raw[..10][7] == 'c'; } else { assert raw[..16][7] == 'c'; }
    assert |raw| >= 11 ==> raw[..11][7] == raw[7] == 'c';
    assert "diff --git "[7] == 'g';
  }

  /** So does a header line in which no first side stands, or nothing after it. */
  lemma UnmatchedHeaderNamesNothing(s: Scan, sides: string)
    requires ' ' !in sides || (!StartsWith(sides, "a/") && !StartsWith(sides, "\"a/"))
    ensures Step(s, "diff --git " + sides) == Scan(InHeader, "", s.line, s.added, s.paths)
  {
    HeaderOfSides(sides);
    assert ("diff --git " + sides)[..11] == "diff --git ";
    if ' ' !in sides {
      if StartsWith(sides, "\"a/") { NoTokenWithoutBlank(sides[3..]); }
      if StartsWith(sides, "a/") { NoTokenWithoutBlank(sides[2..]); }
    }
  }

  lemma {:induction false} NoTokenWithoutBlank(s: string)
    requires ' ' !in s
    ensures AfterFirstToken(s) == []
  {
    if s != "" {
      assert s[0] in s && forall c :: c in s[1..] ==> c in s;
      if |s| >= 2 { assert s[..2][1] == s[1] && s[1] in s; }
      NoTokenWithoutBlank(s[1..]);
    }
  }

  /** A patch of one file without a header line is read from its target line on. */
  lemma BarePatchIsRead(f: FileDiff)
    requires GoodFile(f) && !f.deleted && f.hunks != []
    ensures var end := ScanLines(START, [SourceLine(f), TargetLine(f)] + RenderHunks(f.hunks));
            end.added == AddedByHunks(f.path, f.hunks) && end.paths == [f.path]
  {
    hide Step, RenderHunks, SourceLine, TargetLine, AddedByHunks;
    ScanAppend(START, [SourceLine(f), TargetLine(f)], RenderHunks(f.hunks));
    BareTarget(f);
    assert [SourceLine(f), TargetLine(f)] == [SourceLine(f)] + [TargetLine(f)];
    ScanAppend(START, [SourceLine(f)], [TargetLine(f)]);
    ScanOne(START, SourceLine(f));
    ScanOne(START, TargetLine(f));
    ScanHunks(START.(mode := InHeader, path := f.path, paths := [f.path]), f.hunks);
  }

  lemma BareTarget(f: FileDiff)
    requires GoodFile(f) && !f.deleted
    ensures Step(START, SourceLine(f)) == START
    ensures Step(START, TargetLine(f)) == START.(mode := InHeader, path := f.path, paths := [f.path])
  {
    hide StartsFile, CleanPath, NameEnd, Named, GoodHunk, GoodExtra;
    var minus, plus := SourceLine(f), TargetLine(f);
    assert minus[0] == '-';
    NotAFileLine(minus);
    assert plus[0] == '+' && plus[..4] == "+++ " && plus[4..] == Named("b/", f) + NameEnd(f);
    NotAFileLine(plus);
    CleanTarget(f);
  }

  /** A hunk line without a number after a plus sign starts at 0. */
  lemma {:induction false} NoStartIsZero(raw: string)
    requires forall i :: 0 <= i < |raw| - 1 && raw[i] == '+' ==> !IsDigit(raw[i + 1])
    ensures HunkStart(raw) == 0
  {
    if raw != "" { NoStartIsZero(raw[1..]); }
  }

  // ----- the whole parser -----

  lemma {:induction false} FirstTokenEndsAtQuote(p: string, rest: string)
    requires ' ' !in p && '"' !in p
    ensures AfterFirstToken(p + "\" " + rest) == [rest]
  {
    var s := p + "\" " + rest;
    if p == "" {
      assert s[..2] == "\" " && s[2..] == rest;
    } else {
      assert p[0] in p && forall c :: c in p[1..] ==> c in p;
      assert s[1..] == p[1..] + "\" " + rest;
      assert s[0] == p[0] && s[..2][0] == p[0];
      FirstTokenEndsAtQuote(p[1..], rest);
    }
  }

  lemma HeaderOfSides(sides: string)
    ensures HeaderPath("diff --git " + sides) == PathOfSides(sides)
  {
    hide PathOfSides;
    assert ("diff --git " + sides)[..11] == "diff --git " && ("diff --git " + sides)[11..] == sides;
  }

  lemma QuotedNames(p: string)
    ensures ("\"" + "a/" + p + "\"") + " " + ("\"" + "b/" + p + "\"") == "\"a/" + (p + "\" " + ("\"b/" + p + "\""))
  {
    assert "\"" + "a/" == "\"a/" && "\"" + "b/" == "\"b/" && "\"" + " " == "\" ";
    var second := "\"b/" + p + "\"";
    assert ("\"a/" + p + "\"") + " " == "\"a/" + (p + "\" ");
    Assoc("\"a/", p + "\" ", second);
  }

  lemma QuotedSides(f: FileDiff)
    requires f.quoted
    ensures HeaderPath(FileLine(f)) == PathAfter(f.path + "\" " + ("\"b/" + f.path + "\""))
  {
    hide PathAfter, HeaderPath, PathOfSides;
    var sides := Named("a/", f) + " " + Named("b/", f);
    Assoc("diff --git ", Named("a/", f), " ");
    Assoc("diff --git ", Named("a/", f) + " ", Named("b/", f));
    assert FileLine(f) == "diff --git " + sides;
    HeaderOfSides(sides);
    QuotedNames(f.path);
    PathOfQuotedSides(f.path + "\" " + ("\"b/" + f.path + "\""));
  }

  lemma PathOfQuotedSides(sides: string)
    ensures PathOfSides("\"a/" + sides) == PathAfter(sides)
  {
    hide PathAfter;
    assert ("\"a/" + sides)[..3] == "\"a/" && ("\"a/" + sides)[3..] == sides;
  }

  /** And so does a header line with quoted names. */
  lemma QuotedHeaderPath(f: FileDiff)
    requires f.quoted && TreePath(f.path) && ' ' !in f.path && !HasSide(f.path)
    ensures HeaderPath(FileLine(f)) == f.path
  {
    hide CleanPath, DropQuote, DropSide, AfterFirstToken, HeaderPath, FileLine;
    var p := f.path;
    QuotedSides(f);
    FirstTokenEndsAtQuote(p, "\"b/" + p + "\"");
    QuotedSide(p);
    StripKeeps(p, IsSpace);
    CleanUnquoted(p, p);
  }

  lemma QuotedSide(p: string)
    ensures DropQuote(DropSide("\"b/" + p + "\"")) == p
  {
    var side := "\"b/" + p + "\"";
    assert side[..3] == "\"b/" && side[3..] == p + "\"";
    assert (p + "\"")[|p|..] == "\"";
  }

  /** Paths that the header lines name correctly. */
  ghost predicate NamedByHeader(f: FileDiff) {
    TreePath(f.path) && ' ' !in f.path && !HasSide(f.path)
  }

  lemma {:induction false} ScanPatchPaths(s: Scan, patch: seq<FileDiff>)
    requires GoodPatch(patch) && forall f :: f in patch ==> NamedByHeader(f)
    ensures ScanLines(s, RenderLines(patch)).paths == s.paths + PathsOfPatch(patch)
    decreases |patch|
  {
    hide Step, ScanLines, RenderFile, GoodFile, AddedByHunks, HeaderPath, TreePath, HasSide;
    ScanNone(s);
    if patch != [] {
      var f, rest := patch[0], patch[1..];
      assert f in patch && forall g :: g in rest ==> g in patch;
      ScanAppend(s, RenderFile(f), RenderLines(rest));
      ScanFile(s, f);
      NamedFileAddsItsPath(s.paths, f);
      ScanPatchPaths(ScanLines(s, RenderFile(f)), rest);
      Assoc(s.paths, [f.path], PathsOfPatch(rest));
    }
  }

  lemma NamedFileAddsItsPath(paths: seq<string>, f: FileDiff)
    requires NamedByHeader(f)
    ensures PathsSeen(paths, f) == paths + [f.path]
  {
    hide HeaderPath;
    if f.quoted {
      QuotedHeaderPath(f);
    } else {
      HeaderPathIsExact(f.path);
      assert FileLine(f) == "diff --git a/" + f.path + " b/" + f.path;
    }
  }

  lemma {:induction false} ChangesAreLines(cs: seq<Change>)
    requires forall c :: c in cs ==> GoodChange(c)
    ensures forall l :: l in RenderChanges(cs) ==> OneLine(l)
  {
    if cs != [] {
      assert cs[0] in cs && forall c :: c in cs[1..] ==> c in cs;
      ChangesAreLines(cs[1..]);
    }
  }

  lemma {:induction false} HunksAreLines(hs: seq<Hunk>)
    requires forall h :: h in hs ==> GoodHunk(h)
    ensures forall l :: l in RenderHunks(hs) ==> OneLine(l)
  {
    hide RenderChanges, Decimal;
    if hs != [] {
      var h := hs[0];
      assert h in hs && forall x :: x in hs[1..] ==> x in hs;
      ChangesAreLines(h.changes);
      DecimalIsDigits(h.start);
      HunksAreLines(hs[1..]);
    }
  }

  lemma {:induction false} BlanksAreLines(n: nat)
    ensures forall l :: l in Blanks(n) ==> OneLine(l)
  {
    if n > 0 { BlanksAreLines(n - 1); }
  }

  lemma NamesAreLines(f: FileDiff)
    requires GoodPath(f)
    ensures OneLine(FileLine(f)) && OneLine(SourceLine(f)) && OneLine(TargetLine(f))
  {
    forall side | side in {"a/", "b/"} ensures OneLine(Named(side, f) + NameEnd(f)) && OneLine(Named(side, f)) {}
    hide Named, NameEnd;
    assert FileLine(f) == "diff --git " + Named("a/", f) + " " + Named("b/", f);
  }

  lemma FileIsLines(f: FileDiff)
    requires GoodFile(f)
    ensures forall l :: l in RenderFile(f) ==> OneLine(l)
  {
    hide RenderHunks, Blanks, StartsFile, FileLine, SourceLine, TargetLine;
    NamesAreLines(f);
    HunksAreLines(f.hunks);
    BlanksAreLines(f.gap);
  }

  lemma {:induction false} PatchIsLines(patch: seq<FileDiff>)
    requires GoodPatch(patch)
    ensures forall l :: l in RenderLines(patch) ==> OneLine(l)
  {
    hide RenderFile, GoodFile;
    if patch != [] {
      assert patch[0] in patch && forall f :: f in patch[1..] ==> f in patch;
      FileIsLines(patch[0]);
      PatchIsLines(patch[1..]);
    }
  }

  /** Reading a printed patch finds exactly its added lines, in order, whatever their text; and its file
      paths, when the header lines can name them. */
  lemma ParseOfRender(patch: seq<FileDiff>)
    requires GoodPatch(patch)
    ensures var end := ScanLines(START, Lines(Render(patch)));
            && end.added == AddedByPatch(patch)
            && ((forall f :: f in patch ==> NamedByHeader(f)) ==> end.paths == PathsOfPatch(patch))
  {
    hide Step, ScanLines, RenderLines, GoodFile, NamedByHeader;
    PatchIsLines(patch);
    assert "\n" == ['\n'];
    SplitOfJoin(RenderLines(patch) + [""], '\n');
    ScanAppend(START, RenderLines(patch), [""]);
    ScanPatchAdded(START, patch);
    if forall f :: f in patch ==> NamedByHeader(f) { ScanPatchPaths(START, patch); }
    ScanLastLine(ScanLines(START, RenderLines(patch)));
  }

  lemma ScanLastLine(s: Scan)
    ensures ScanLines(s, [""]) == s
  {
    ScanBlanks(s, 1);
    assert Blanks(1) == [""] + Blanks(0);
    assert Blanks(1) == [""];
  }
}
