/** Manifests as they are written: a `known_hazards:` block sequence between other top-level keys, with
    plain, quoted, literal and folded scalars. The reader returns exactly the entries printed, in order. */
module HazardPrinting {
  import opened PyText
  import opened HazardReader
  import opened Options

  datatype Scalar =
    | Plain(text: string)
    | Quoted(quote: char, inner: string)
    | Block(style: char, chomp: string, extra: nat, lines: seq<string>)

  /** A key, its value, and blank lines up to the next line (a block keeps its own blank lines). */
  datatype Field = Field(key: string, value: Scalar, below: nat)

  /** Each item has its own spaces after the dash, and each block its own `extra` ones beyond its key. The first key
      follows the dash, or stands on the next line, where all keys of the item have their own indentation. */
  datatype Item = Item(gap: nat, own: Option<nat>, fields: seq<Field>)

  /** Where the lines of one item stand; the dash is that of all items. */
  datatype Layout = Layout(dash: nat, gap: nat, own: Option<nat>) {
    function FieldIndent(): nat { if own.Some? then own.value else dash + 1 + gap }
  }

  function Spaces(n: nat): string { if n == 0 then "" else " " + Spaces(n - 1) }

  function ValueText(v: Scalar): string {
    match v
    case Plain(text) => text
    case Quoted(quote, inner) => [quote] + inner + [quote]
    case Block(style, chomp, _, _) => [style] + chomp
  }

  function Body(f: Field): string { f.key + ": " + ValueText(f.value) }

  function PrintLine(indent: nat, line: string): string {
    if line == "" then "" else Spaces(indent) + line
  }

  function PrintBlock(indent: nat, lines: seq<string>): seq<string> {
    if lines == [] then [] else [PrintLine(indent, lines[0])] + PrintBlock(indent, lines[1..])
  }

  /** The lines that follow a field's own line. */
  function Tail(l: Layout, f: Field): seq<string> {
    if f.value.Block? then PrintBlock(l.FieldIndent() + f.value.extra, f.value.lines) else Blanks(f.below)
  }

  function HeadLine(l: Layout, f: Field): string {
    Spaces(l.dash) + "-" + Spaces(l.gap) + Body(f)
  }

  function FieldLine(l: Layout, f: Field): string { Spaces(l.FieldIndent()) + Body(f) }

  function PrintFields(l: Layout, fields: seq<Field>): seq<string> {
    if fields == [] then []
    else [FieldLine(l, fields[0])] + Tail(l, fields[0]) + PrintFields(l, fields[1..])
  }

  function PrintItem(l: Layout, fields: seq<Field>): seq<string> {
    if l.own.Some? then [Spaces(l.dash) + "-" + Spaces(l.gap)] + PrintFields(l, fields)
    else if fields == [] then [] else [HeadLine(l, fields[0])] + Tail(l, fields[0]) + PrintFields(l, fields[1..])
  }

  function LayoutOf(dash: nat, item: Item): Layout { Layout(dash, item.gap, item.own) }

  function PrintItems(dash: nat, items: seq<Item>): seq<string> {
    if items == [] then [] else PrintItem(LayoutOf(dash, items[0]), items[0].fields) + PrintItems(dash, items[1..])
  }

  // ----- what a reader should find -----

  /** The lines that are not blank, trimmed, in order, with one space between two of them. */
  function Folded(lines: seq<string>): string {
    if lines == [] then ""
    else
      var word, rest := Strip(lines[0], IsSpace), Folded(lines[1..]);
      if word == "" then rest else if rest == "" then word else word + " " + rest
  }

  /** Trimmed lines, none of them empty, are simply joined. */
  lemma {:induction false} FoldedIsJoined(lines: seq<string>)
    requires forall l :: l in lines ==> Bare(l)
    ensures Folded(lines) == Join(" ", lines)
    ensures lines != [] ==> Folded(lines) != ""
  {
    if lines != [] {
      assert lines[0] in lines && forall l :: l in lines[1..] ==> l in lines;
      StripKeeps(lines[0], IsSpace);
      FoldedIsJoined(lines[1..]);
    }
  }

  /** Blank lines anywhere add nothing. */
  lemma {:induction false} BlankLinesFoldAway(a: seq<string>, blanks: seq<string>, b: seq<string>)
    requires forall l :: l in blanks ==> BlankLine(l)
    ensures Folded(a + blanks + b) == Folded(a + b)
    decreases |a|, |blanks|
  {
    if a != [] {
      assert (a + blanks + b)[1..] == a[1..] + blanks + b && (a + b)[1..] == a[1..] + b;
      BlankLinesFoldAway(a[1..], blanks, b);
    } else if blanks != [] {
      assert blanks[0] in blanks && forall l :: l in blanks[1..] ==> l in blanks;
      assert (a + blanks + b)[1..] == a + blanks[1..] + b;
      BlankLinesFoldAway(a, blanks[1..], b);
    } else {
      assert a + blanks + b == a + b;
    }
  }

  /** Literal text line by line without trailing line breaks; folded text as its lines folded. */
  function TextOf(v: Scalar): string {
    match v
    case Plain(text) => text
    case Quoted(_, inner) => inner
    case Block(style, _, _, lines) =>
      if style == '|' then RStrip(Join("\n", lines), IsLineFeed) else Folded(lines)
  }

  function EntryOf(fields: seq<Field>, e: Entry): Entry {
    if fields == [] then e else EntryOf(fields[1..], e[fields[0].key := TextOf(fields[0].value)])
  }

  function EntriesOf(items: seq<Item>): seq<Entry> {
    if items == [] then [] else [EntryOf(items[0].fields, map[])] + EntriesOf(items[1..])
  }

  // ----- what may be printed -----

  predicate GoodKey(key: string) { IsKey(key) }

  predicate Bare(s: string) { s != "" && !IsSpace(s[0]) && !IsSpace(s[|s| - 1]) }

  predicate LooksQuoted(s: string) { |s| >= 2 && s[0] == s[|s| - 1] && s[0] in {'\'', '"'} }

  /** The first line that is not empty is not indented beyond the block. */
  predicate FirstIsFlush(lines: seq<string>) {
    lines == [] || if lines[0] == "" then FirstIsFlush(lines[1..]) else lines[0][0] != ' '
  }

  predicate GoodScalar(v: Scalar) {
    match v
    case Plain(text) => Bare(text) && BlockStyle(text) == None && !LooksQuoted(text)
    case Quoted(quote, _) => quote in {'\'', '"'}
    case Block(style, chomp, extra, lines) =>
      && extra >= 1
      && (style == '|' || style == '>') && (chomp == "" || chomp == "+" || chomp == "-")
      && (forall l :: l in lines ==> l == "" || !BlankLine(l))
      && FirstIsFlush(lines)
  }

  predicate GoodField(f: Field) { GoodKey(f.key) && GoodScalar(f.value) }

  predicate GoodFields(fields: seq<Field>) { fields != [] && forall f :: f in fields ==> GoodField(f) }

  predicate GoodItem(dash: nat, item: Item) { GoodLayout(LayoutOf(dash, item)) && GoodFields(item.fields) }

  predicate GoodLayout(l: Layout) { l.dash >= 1 && l.gap >= 1 && l.FieldIndent() > l.dash }

  // ----- lines -----

  lemma {:induction false} SpacesAre(n: nat)
    ensures |Spaces(n)| == n && forall c :: c in Spaces(n) ==> c == ' '
  {
    if n > 0 { SpacesAre(n - 1); }
  }

  lemma IndentOf(n: nat, rest: string)
    requires rest == "" || rest[0] != ' '
    ensures Indent(Spaces(n) + rest) == n
  {
    SpacesAre(n);
    RunOver(Spaces(n), rest, IsSpaceChar);
  }

  lemma SkipSpaces(n: nat, rest: string)
    requires rest == "" || !IsBlank(rest[0])
    ensures SkipBlanks(Spaces(n) + rest) == rest
  {
    SpacesAre(n);
    RunOver(Spaces(n), rest, IsBlank);
  }

  lemma NotBlankLine(raw: string, i: nat)
    requires i < |raw| && !IsSpace(raw[i])
    ensures !BlankLine(raw)
  {
    StripEmpty(raw, IsSpace);
  }

  lemma WordIsNotSpace(c: char)
    requires IsWord(c)
    ensures !IsSpace(c) && !IsBlank(c) && c != '-' && c != ' '
  {
  }

  lemma ValueIsBare(v: Scalar)
    requires GoodScalar(v)
    ensures Bare(ValueText(v)) && Strip(ValueText(v), IsSpace) == ValueText(v)
  {
    StripKeeps(ValueText(v), IsSpace);
  }

  lemma KeyValueOf(key: string, v: string)
    requires GoodKey(key) && v != "" && !IsBlank(v[0])
    ensures KeyValue(key + (":" + (" " + v))) == Some((key, v))
  {
    hide IsWord, IsBlank;
    var rest := ":" + (" " + v);
    KeyIsWords(key);
    ColonIsNoWord();
    RunOver(key, rest, IsWord);
    assert (key + rest)[..|key|] == key && (key + rest)[|key|] == ':';
    assert (key + rest)[|key| + 1..] == " " + v;
    SkipSpaces(1, v);
    assert Spaces(1) == " " + Spaces(0);
  }

  lemma ColonIsNoWord()
    ensures !IsWord(':')
  {
  }

  lemma BareIsNoBlank(v: string)
    requires Bare(v)
    ensures !IsBlank(v[0])
  {
  }

  /** The body of a field line is read back as its key and its value text. */
  lemma BodyReadsBack(f: Field)
    requires GoodField(f)
    ensures KeyValue(Body(f)) == Some((f.key, ValueText(f.value)))
    ensures Body(f) != "" && IsWord(Body(f)[0]) && Bare(Body(f))
  {
    hide IsWord, IsSpace, KeyValue, ValueText, GoodScalar;
    var v := ValueText(f.value);
    ValueIsBare(f.value);
    BareIsNoBlank(v);
    assert Body(f) == f.key + (":" + (" " + v));
    KeyValueOf(f.key, v);
    KeyIsWords(f.key);
    assert f.key[0] in f.key && Body(f)[0] == f.key[0];
    WordIsNotSpace(f.key[0]);
    assert Body(f)[|Body(f)| - 1] == v[|v| - 1];
  }

  /** What the reader sees in `<spaces>- <body>` and in `<spaces><body>`, for a body that starts a key. */
  lemma DashLineReads(dash: nat, gap: nat, body: string)
    requires gap >= 1 && (body == "" || IsWord(body[0]))
    ensures var raw := Spaces(dash) + "-" + Spaces(gap) + body;
            Indent(raw) == dash && !BlankLine(raw) && DashRest(raw) == Some(body)
            && |raw| - |body| == dash + 1 + gap
  {
    hide BlankLine, IsWord, IsSpace, SkipBlanks, Indent;
    if body != "" { WordIsNotSpace(body[0]); }
    var dashed := "-" + (Spaces(gap) + body);
    var raw := Spaces(dash) + "-" + Spaces(gap) + body;
    assert raw == Spaces(dash) + dashed;
    DashIsNoSpace();
    SpacesAre(dash);
    SpacesAre(gap);
    IndentOf(dash, dashed);
    SkipSpaces(dash, dashed);
    assert dashed[1..] == Spaces(gap) + body;
    SkipSpaces(gap, body);
    assert Spaces(gap)[0] in Spaces(gap);
    assert dashed[1] == ' ';
    assert raw[dash] == '-';
    NotBlankLine(raw, dash);
  }

  lemma DashIsNoSpace()
    ensures !IsSpace('-') && !IsBlank('-')
  {
  }

  lemma KeyLineReads(n: nat, body: string)
    requires Bare(body) && IsWord(body[0])
    ensures var raw := Spaces(n) + body;
            Indent(raw) == n && !BlankLine(raw) && DashRest(raw) == None && Strip(raw, IsSpace) == body
  {
    hide BlankLine, IsWord, SkipBlanks, Indent, Strip;
    var raw := Spaces(n) + body;
    WordIsNotSpace(body[0]);
    SpacesAre(n);
    IndentOf(n, body);
    SkipSpaces(n, body);
    assert raw[n] == body[0] && raw[|raw| - 1] == body[|body| - 1];
    NotBlankLine(raw, n);
    assert forall k :: 0 <= k < n ==> raw[k] == Spaces(n)[k] && Spaces(n)[k] in Spaces(n);
    StripIs(raw, IsSpace, n, |raw|);
    assert raw[n..|raw|] == body;
  }

  // ----- block scalars -----

  lemma {:induction false} PrintedBlockIndent(indent: nat, lines: seq<string>)
    requires (forall l :: l in lines ==> l == "" || !BlankLine(l)) && FirstIsFlush(lines)
    ensures ContentIndent(PrintBlock(indent, lines)) == None ==> forall l :: l in lines ==> l == ""
    ensures ContentIndent(PrintBlock(indent, lines)).Some? ==> ContentIndent(PrintBlock(indent, lines)).value == indent
  {
    hide BlankLine;
    if lines != [] {
      var line, rest := lines[0], lines[1..];
      assert line in lines && forall l :: l in rest ==> l in lines;
      PrintedLineIsBlank(indent, line);
      if line == "" {
        PrintedBlockIndent(indent, rest);
        assert PrintBlock(indent, lines)[1..] == PrintBlock(indent, rest);
        assert lines == [line] + rest;
      } else {
        IndentOf(indent, line);
      }
    }
  }

  lemma PrintedLineIsBlank(indent: nat, line: string)
    requires line == "" || !BlankLine(line)
    ensures BlankLine(PrintLine(indent, line)) <==> line == ""
  {
    if line == "" {
      StripEmpty("", IsSpace);
    } else {
      StripEmpty(line, IsSpace);
      var i :| 0 <= i < |line| && !IsSpace(line[i]);
      SpacesAre(indent);
      assert (Spaces(indent) + line)[indent + i] == line[i];
      NotBlankLine(Spaces(indent) + line, indent + i);
    }
  }

  lemma {:induction false} DedentOfPrinted(indent: nat, lines: seq<string>)
    ensures DedentAll(PrintBlock(indent, lines), indent) == lines
  {
    if lines != [] {
      var line := lines[0];
      SpacesAre(indent);
      if line != "" { assert (Spaces(indent) + line)[indent..] == line; }
      assert PrintBlock(indent, lines)[1..] == PrintBlock(indent, lines[1..]);
      DedentOfPrinted(indent, lines[1..]);
      assert lines == [line] + lines[1..];
    }
  }

  lemma {:induction false} EmptyLinesFoldToNothing(lines: seq<string>)
    requires forall l :: l in lines ==> l == ""
    ensures RStrip(Join("\n", lines), IsLineFeed) == "" && StrippedWords(lines) == []
  {
    EmptyLinesJoin(lines);
    RStripIs(Join("\n", lines), IsLineFeed, 0);
    EmptyLinesHaveNoWords(lines);
  }

  lemma {:induction false} EmptyLinesJoin(lines: seq<string>)
    requires forall l :: l in lines ==> l == ""
    ensures forall i :: 0 <= i < |Join("\n", lines)| ==> Join("\n", lines)[i] == '\n'
  {
    if lines != [] {
      assert lines[0] in lines && forall l :: l in lines[1..] ==> l in lines;
      EmptyLinesJoin(lines[1..]);
    }
  }

  lemma {:induction false} EmptyLinesHaveNoWords(lines: seq<string>)
    requires forall l :: l in lines ==> l == ""
    ensures StrippedWords(lines) == []
  {
    if lines != [] {
      assert lines[0] in lines && forall l :: l in lines[1..] ==> l in lines;
      StripEmpty("", IsSpace);
      EmptyLinesHaveNoWords(lines[1..]);
    }
  }

  lemma {:induction false} WordsAreFolded(lines: seq<string>)
    ensures Join(" ", StrippedWords(lines)) == Folded(lines)
    ensures Folded(lines) == "" <==> StrippedWords(lines) == []
  {
    if lines != [] { WordsAreFolded(lines[1..]); }
  }

  /** A printed block scalar folds back to its text. */
  lemma FoldOfPrinted(indent: nat, v: Scalar)
    requires v.Block? && GoodScalar(v)
    ensures FoldBlock(PrintBlock(indent, v.lines), v.style) == TextOf(v)
  {
    hide BlankLine, RStrip;
    PrintedBlockIndent(indent, v.lines);
    DedentOfPrinted(indent, v.lines);
    WordsAreFolded(v.lines);
    if ContentIndent(PrintBlock(indent, v.lines)) == None { EmptyLinesFoldToNothing(v.lines); }
  }

  // ----- the reader over printed lines -----

  /** The reader between two lines of an item: closing any open block leaves these entries and this map. */
  ghost predicate At(r: Reader, l: Layout, entries: seq<Entry>, e: Entry) {
    && !r.stopped && r.dash == Some(l.dash) && r.field == Some(l.FieldIndent())
    && Close(r).entries == entries && Close(r).current == Some(e)
  }

  /** The same before the first item. */
  ghost predicate Before(r: Reader) {
    !r.stopped && r.dash == None && r.key == None && r.entries == [] && r.current == None
  }

  /** Right after a field's own line: a block is open and empty, or the value is already in the map. */
  ghost predicate Opened(r: Reader, l: Layout, entries: seq<Entry>, e: Entry, f: Field) {
    && !r.stopped && r.dash == Some(l.dash) && r.field == Some(l.FieldIndent()) && r.entries == entries
    && if f.value.Block? then
         r.key == Some(f.key) && r.style == f.value.style && r.block == [] && r.current == Some(e)
       else
         r.key == None && r.current == Some(e[f.key := TextOf(f.value)])
  }

  /** Handling a printed key and value opens the block or stores the text. */
  lemma HandlePrinted(r: Reader, l: Layout, entries: seq<Entry>, e: Entry, f: Field)
    requires GoodField(f) && !r.stopped && r.dash == Some(l.dash) && r.field == Some(l.FieldIndent())
    requires r.entries == entries && r.current == Some(e) && r.key == None
    ensures Opened(Handle(r, f.key, ValueText(f.value)), l, entries, e, f)
  {
    hide Strip, RStrip, IsSpace, Bare;
    var v := ValueText(f.value);
    ValueIsBare(f.value);
    match f.value
    case Plain(_) =>
    case Quoted(quote, inner) => assert v[0] == quote && v[|v| - 1] == quote && v[1..|v| - 1] == inner;
    case Block(style, chomp, _, _) =>
      assert v[0] == style;
      if chomp != "" { assert v[1] == chomp[0] && v[2..] == ""; } else { assert v[1..] == ""; }
  }

  lemma {:induction false} ScanBlock(r: Reader, l: Layout, n: nat, lines: seq<string>)
    requires !r.stopped && r.key.Some? && r.field == Some(l.FieldIndent()) && n > l.FieldIndent()
    requires forall x :: x in lines ==> x == "" || !BlankLine(x)
    ensures Scan(r, PrintBlock(n, lines)) == r.(block := r.block + PrintBlock(n, lines))
    decreases |lines|
  {
    hide BlankLine, Step, Scan, PrintLine;
    if lines == [] {
      ScanNothing(r);
      assert r.block + [] == r.block;
    } else {
      var raw, rest := PrintLine(n, lines[0]), PrintBlock(n, lines[1..]);
      assert lines[0] in lines && forall x :: x in lines[1..] ==> x in lines;
      BlockLineIsKept(r, l, n, lines[0]);
      ScanCons(r, raw, rest);
      ScanBlock(Step(r, raw), l, n, lines[1..]);
      Assoc(r.block, [raw], rest);
    }
  }

  lemma ScanCons(r: Reader, raw: string, rest: seq<string>)
    ensures Scan(r, [raw] + rest) == Scan(Step(r, raw), rest)
  {
    hide Step;
    assert ([raw] + rest)[1..] == rest;
  }

  lemma BlockLineIsKept(r: Reader, l: Layout, n: nat, line: string)
    requires !r.stopped && r.key.Some? && r.field == Some(l.FieldIndent()) && n > l.FieldIndent()
    requires line == "" || !BlankLine(line)
    ensures var raw := PrintLine(n, line); Step(r, raw) == r.(block := r.block + [raw])
  {
    hide BlankLine, Indent, StepOutside;
    PrintedLineIsBlank(n, line);
    if line != "" { PrintedLineIndent(n, line); }
  }

  lemma PrintedLineIndent(n: nat, line: string)
    ensures Indent(Spaces(n) + line) >= n
  {
    var k := RunLength(line, IsSpaceChar);
    SpacesAre(n);
    assert Spaces(n) + line == (Spaces(n) + line[..k]) + line[k..];
    RunOver(Spaces(n) + line[..k], line[k..], IsSpaceChar);
  }

  lemma {:induction false} ScanBlanks(r: Reader, n: nat)
    requires r.key == None
    ensures Scan(r, Blanks(n)) == r
    decreases n
  {
    hide StepOutside, Indent;
    if n > 0 {
      StripEmpty("", IsSpace);
      assert Step(r, "") == r;
      assert Blanks(n)[1..] == Blanks(n - 1);
      ScanBlanks(r, n - 1);
    }
  }

  /** The lines under a field's own line complete its value. */
  lemma ScanTail(r: Reader, l: Layout, entries: seq<Entry>, e: Entry, f: Field)
    requires GoodLayout(l) && GoodField(f) && Opened(r, l, entries, e, f)
    ensures At(Scan(r, Tail(l, f)), l, entries, e[f.key := TextOf(f.value)])
  {
    hide Scan, PrintBlock, Blanks, TextOf;
    if f.value.Block? {
      var n := l.FieldIndent() + f.value.extra;
      ScanBlock(r, l, n, f.value.lines);
      FoldOfPrinted(n, f.value);
      assert [] + PrintBlock(n, f.value.lines) == PrintBlock(n, f.value.lines);
    } else {
      ScanBlanks(r, f.below);
    }
  }

  /** A line that is neither blank nor in a block is read as if the open block had been closed. */
  lemma FieldLineOpens(r: Reader, l: Layout, entries: seq<Entry>, e: Entry, f: Field)
    requires GoodLayout(l) && GoodField(f) && At(r, l, entries, e)
    ensures Opened(Step(r, FieldLine(l, f)), l, entries, e, f)
  {
    hide BlankLine, Indent, DashRest, KeyValue, Handle, Opened, Strip, Body, IsWord;
    BodyReadsBack(f);
    KeyLineReads(l.FieldIndent(), Body(f));
    HandlePrinted(Close(r), l, entries, e, f);
  }

  /** The dash line of an item, after an item of any layout with the same dash. */
  lemma HeadLineOpens(r: Reader, last: Layout, l: Layout, entries: seq<Entry>, f: Field)
    requires GoodLayout(l) && l.own == None && GoodField(f) && last.dash == l.dash && GoodLayout(last)
    requires if entries == [] then Before(r) else At(r, last, entries[..|entries| - 1], entries[|entries| - 1])
    ensures Opened(Step(r, HeadLine(l, f)), l, entries, map[], f)
  {
    hide BlankLine, Indent, DashRest, KeyValue, Handle, Opened, Body, IsWord;
    BodyReadsBack(f);
    DashLineReads(l.dash, l.gap, Body(f));
    var c := Close(r);
    var started := Reader(entries, Some(map[]), Some(l.dash), Some(l.FieldIndent()), None, c.style, c.block, false);
    if entries != [] { assert entries == entries[..|entries| - 1] + [entries[|entries| - 1]]; }
    HandlePrinted(started, l, entries, map[], f);
  }

  lemma {:induction false} ScanFields(r: Reader, l: Layout, entries: seq<Entry>, e: Entry, fields: seq<Field>)
    requires GoodLayout(l) && At(r, l, entries, e) && forall f :: f in fields ==> GoodField(f)
    ensures At(Scan(r, PrintFields(l, fields)), l, entries, EntryOf(fields, e))
    decreases |fields|
  {
    hide Step, Tail, FieldLine, At, GoodField, TextOf;
    if fields == [] {
      ScanNothing(r);
    } else {
      var f, rest := fields[0], fields[1..];
      assert f in fields && forall g :: g in rest ==> g in fields;
      FieldLineOpens(r, l, entries, e, f);
      ScanLineAndTail(r, FieldLine(l, f), Tail(l, f), PrintFields(l, rest));
      ScanTail(Step(r, FieldLine(l, f)), l, entries, e, f);
      ScanFields(Scan(Step(r, FieldLine(l, f)), Tail(l, f)), l, entries, e[f.key := TextOf(f.value)], rest);
    }
  }

  lemma ScanNothing(r: Reader)
    ensures Scan(r, []) == r
  {
  }

  lemma ScanLineAndTail(r: Reader, raw: string, tail: seq<string>, rest: seq<string>)
    ensures Scan(r, [raw] + tail + rest) == Scan(Scan(Step(r, raw), tail), rest)
  {
    hide Step;
    ScanAppend(r, [raw] + tail, rest);
    assert ([raw] + tail)[1..] == tail;
  }

  lemma ScanItem(r: Reader, last: Layout, l: Layout, entries: seq<Entry>, fields: seq<Field>)
    requires GoodLayout(l) && GoodFields(fields) && last.dash == l.dash && GoodLayout(last)
    requires if entries == [] then Before(r) else At(r, last, entries[..|entries| - 1], entries[|entries| - 1])
    ensures At(Scan(r, PrintItem(l, fields)), l, entries, EntryOf(fields, map[]))
  {
    hide Step, Scan, Tail, HeadLine, FieldLine, At, Before, GoodField, TextOf;
    if l.own.Some? {
      BareDashItem(r, last, l, entries, fields);
      return;
    }
    var f, rest := fields[0], fields[1..];
    assert f in fields && forall g :: g in rest ==> g in fields;
    HeadLineOpens(r, last, l, entries, f);
    ScanLineAndTail(r, HeadLine(l, f), Tail(l, f), PrintFields(l, rest));
    ScanTail(Step(r, HeadLine(l, f)), l, entries, map[], f);
    ScanFields(Scan(Step(r, HeadLine(l, f)), Tail(l, f)), l, entries, map[f.key := TextOf(f.value)], rest);
  }

  /** After a dash by itself, the first key sets the indentation of the item's fields. */
  lemma BareDashOpens(r: Reader, last: Layout, l: Layout, entries: seq<Entry>)
    requires GoodLayout(l) && last.dash == l.dash && GoodLayout(last)
    requires if entries == [] then Before(r) else At(r, last, entries[..|entries| - 1], entries[|entries| - 1])
    ensures var next := Step(r, Spaces(l.dash) + "-" + Spaces(l.gap));
            next.field == None && next.key == None && At(next.(field := Some(l.FieldIndent())), l, entries, map[])
  {
    hide BlankLine, Indent, DashRest, Handle;
    DashLineReads(l.dash, l.gap, "");
    assert Spaces(l.dash) + "-" + Spaces(l.gap) + "" == Spaces(l.dash) + "-" + Spaces(l.gap);
    assert KeyValue("") == None;
    if entries != [] { assert entries == entries[..|entries| - 1] + [entries[|entries| - 1]]; }
  }

  lemma FirstKeySetsField(r: Reader, l: Layout, entries: seq<Entry>, f: Field)
    requires GoodLayout(l) && GoodField(f) && r.field == None && r.key == None
    requires At(r.(field := Some(l.FieldIndent())), l, entries, map[])
    ensures Step(r, FieldLine(l, f)) == Step(r.(field := Some(l.FieldIndent())), FieldLine(l, f))
  {
    hide BlankLine, Indent, DashRest, KeyValue, Handle, Strip, Body, IsWord;
    BodyReadsBack(f);
    KeyLineReads(l.FieldIndent(), Body(f));
  }

  lemma BareDashItem(r: Reader, last: Layout, l: Layout, entries: seq<Entry>, fields: seq<Field>)
    requires GoodLayout(l) && l.own.Some? && GoodFields(fields) && last.dash == l.dash && GoodLayout(last)
    requires if entries == [] then Before(r) else At(r, last, entries[..|entries| - 1], entries[|entries| - 1])
    ensures At(Scan(r, PrintItem(l, fields)), l, entries, EntryOf(fields, map[]))
  {
    hide Step, Scan, Tail, FieldLine, At, Before, GoodField, TextOf;
    BareDashOpens(r, last, l, entries);
    var dashed := Step(r, Spaces(l.dash) + "-" + Spaces(l.gap));
    var ready := dashed.(field := Some(l.FieldIndent()));
    var f, rest := fields[0], Tail(l, fields[0]) + PrintFields(l, fields[1..]);
    assert f in fields;
    FirstKeySetsField(dashed, l, entries, f);
    ScanFields(ready, l, entries, map[], fields);
    Assoc([FieldLine(l, f)], Tail(l, f), PrintFields(l, fields[1..]));
    assert PrintFields(l, fields) == [FieldLine(l, f)] + rest;
    ScanCons(r, Spaces(l.dash) + "-" + Spaces(l.gap), PrintFields(l, fields));
    ScanCons(dashed, FieldLine(l, f), rest);
    ScanCons(ready, FieldLine(l, f), rest);
  }

  /** A dash at the very end of its line, though valid YAML, starts no item. */
  lemma BareDashWithoutBlankIsIgnored(r: Reader, dash: nat)
    requires dash >= 1 && r.key == None && !r.stopped
    ensures Step(r, Spaces(dash) + "-") == Close(r)
  {
    hide BlankLine, Indent, SkipBlanks, IsSpace;
    var raw := Spaces(dash) + "-";
    DashIsNoSpace();
    IndentOf(dash, "-");
    SkipSpaces(dash, "-");
    SpacesAre(dash);
    assert raw[dash] == '-';
    NotBlankLine(raw, dash);
    forall k | 0 <= k < dash ensures IsSpace(raw[k]) { assert raw[k] == Spaces(dash)[k] && Spaces(dash)[k] in Spaces(dash); SpaceIsSpace(); }
    StripIs(raw, IsSpace, dash, dash + 1);
    assert raw[dash..dash + 1] == "-";
    assert KeyValue("-") == None;
  }

  lemma SpaceIsSpace()
    ensures IsSpace(' ')
  {
  }

  /** From the end of one item to the end of the last. */
  lemma {:induction false} ScanItems(r: Reader, last: Layout, entries: seq<Entry>, e: Entry, items: seq<Item>)
    requires GoodLayout(last) && At(r, last, entries, e) && forall item :: item in items ==> GoodItem(last.dash, item)
    ensures Entries(Scan(r, PrintItems(last.dash, items))) == entries + [e] + EntriesOf(items)
    ensures !Scan(r, PrintItems(last.dash, items)).stopped
    decreases |items|
  {
    hide Step, PrintItem, GoodFields, GoodLayout, EntryOf, At, Scan, Entries;
    if items == [] {
      ScanNothing(r);
      EntriesAt(r, last, entries, e);
    } else {
      var item, rest := items[0], items[1..];
      assert item in items && forall x :: x in rest ==> x in items;
      var before, l := entries + [e], LayoutOf(last.dash, item);
      assert before[..|before| - 1] == entries;
      ScanItem(r, last, l, before, item.fields);
      ScanAppend(r, PrintItem(l, item.fields), PrintItems(last.dash, rest));
      ScanItems(Scan(r, PrintItem(l, item.fields)), l, before, EntryOf(item.fields, map[]), rest);
      Assoc(before, [EntryOf(item.fields, map[])], EntriesOf(rest));
    }
  }

  lemma EntriesAt(r: Reader, l: Layout, entries: seq<Entry>, last: Entry)
    requires At(r, l, entries, last)
    ensures Entries(r) == entries + [last] && !r.stopped
  {
  }

  lemma NothingReadIsNothing()
    ensures Entries(START) == []
  {
  }

  lemma ScanAllItems(dash: nat, items: seq<Item>)
    requires forall item :: item in items ==> GoodItem(dash, item)
    ensures Entries(Scan(START, PrintItems(dash, items))) == EntriesOf(items)
    ensures !Scan(START, PrintItems(dash, items)).stopped
  {
    hide Step, Scan, Entries, PrintItem, GoodFields, EntryOf, At;
    if items == [] {
      ScanNothing(START);
      NothingReadIsNothing();
    } else {
      var item, rest := items[0], items[1..];
      assert item in items && forall x :: x in rest ==> x in items;
      var l := LayoutOf(dash, item);
      ScanItem(START, l, l, [], item.fields);
      ScanAppend(START, PrintItem(l, item.fields), PrintItems(dash, rest));
      ScanItems(Scan(START, PrintItem(l, item.fields)), l, [], EntryOf(item.fields, map[]), rest);
      assert [] + [EntryOf(item.fields, map[])] + EntriesOf(rest) == [EntryOf(item.fields, map[])] + EntriesOf(rest);
    }
  }

  /** The rest of the manifest: nothing, or a line that starts in the first column. */
  ghost predicate TopLevelFollows(after: seq<string>) {
    after == [] || (!BlankLine(after[0]) && Indent(after[0]) == 0)
  }

  lemma TopLevelLineStops(r: Reader, after: seq<string>)
    requires !r.stopped && TopLevelFollows(after)
    ensures Entries(Scan(r, after)) == Entries(r)
  {
    hide BlankLine, Indent, FoldBlock;
    if after != [] { ScanStopped(Step(r, after[0]), after[1..]); }
  }

  lemma {:induction false} FirstTopKey(before: seq<string>, rest: seq<string>)
    requires forall x :: x in before ==> !IsTopKey(x)
    ensures AfterTopKey(before + ["known_hazards:"] + rest) == Some(rest)
  {
    hide IsTopKey;
    var lines := before + ["known_hazards:"] + rest;
    if before == [] {
      TopKeyIsTopKey();
      assert lines[1..] == rest;
    } else {
      assert before[0] in before && forall x :: x in before[1..] ==> x in before;
      assert lines[1..] == before[1..] + ["known_hazards:"] + rest;
      FirstTopKey(before[1..], rest);
    }
  }

  lemma TopKeyIsTopKey()
    ensures IsTopKey("known_hazards:")
  {
    assert "known_hazards:"[..14] == "known_hazards:" && "known_hazards:"[14..] == "";
  }

  function Manifest(before: seq<string>, dash: nat, items: seq<Item>, after: seq<string>): seq<string> {
    before + ["known_hazards:"] + (PrintItems(dash, items) + after)
  }

  /** Between any other top-level keys, the printed hazards are read back exactly, in order. */
  lemma HazardsReadBack(before: seq<string>, dash: nat, items: seq<Item>, after: seq<string>)
    requires forall item :: item in items ==> GoodItem(dash, item)
    requires forall x :: x in before ==> !IsTopKey(x)
    requires TopLevelFollows(after)
    ensures HazardEntries(Manifest(before, dash, items, after)) == EntriesOf(items)
  {
    hide IsTopKey, Step, Scan, Entries, PrintItems, GoodItem, TopLevelFollows;
    FirstTopKey(before, PrintItems(dash, items) + after);
    ScanAppend(START, PrintItems(dash, items), after);
    ScanAllItems(dash, items);
    TopLevelLineStops(Scan(START, PrintItems(dash, items)), after);
  }

  /** Items in the first column, though valid YAML, end the block before it starts. */
  lemma UnindentedItemsAreNotRead(before: seq<string>, rest: seq<string>)
    requires forall x :: x in before ==> !IsTopKey(x)
    requires rest != [] && !BlankLine(rest[0]) && Indent(rest[0]) == 0
    ensures HazardEntries(before + ["known_hazards:"] + rest) == []
  {
    hide IsTopKey, Indent, BlankLine;
    FirstTopKey(before, rest);
    TopLevelLineStops(START, rest);
  }
}
