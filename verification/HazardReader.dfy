/** The reader of the `known_hazards:` block of a product manifest (infra/serve_http.py): a narrow, line by
    line reader of one block sequence of mappings with plain, quoted, literal and folded scalars (YAML
    1.2.2, sections 7.3, 8.1 and 8.2). */
module HazardReader {
  import opened Options
  import opened PyText

  type Entry = map<string, string>

  // ----- patterns -----

  predicate IsWord(c: char) { 'a' <= c <= 'z' || 'A' <= c <= 'Z' || '0' <= c <= '9' || c == '_' }

  predicate AllBlanks(s: string) { forall c :: c in s ==> IsBlank(c) }

  function SkipBlanks(s: string): string { s[RunLength(s, IsBlank)..] }

  /** len(raw) - len(raw.lstrip(" ")) */
  function Indent(raw: string): nat { RunLength(raw, IsSpaceChar) }

  /** `^known_hazards:[ \t]*$` */
  predicate IsTopKey(line: string) {
    StartsWith(line, "known_hazards:") && AllBlanks(line[14..])
  }

  /** `^([ \t]*)-[ \t]+(.*)$`: what follows the dash and its blanks. */
  function DashRest(raw: string): Option<string> {
    var t := SkipBlanks(raw);
    if |t| >= 2 && t[0] == '-' && IsBlank(t[1]) then Some(SkipBlanks(t[1..])) else None
  }

  /** `^([A-Za-z0-9_]+):[ \t]*(.*)$` */
  function KeyValue(s: string): Option<(string, string)> {
    var n := RunLength(s, IsWord);
    if 0 < n < |s| && s[n] == ':' then Some((s[..n], SkipBlanks(s[n + 1..]))) else None
  }

  /** `^([|>])[+-]?[ \t]*$`: the style of a block scalar. */
  function BlockStyle(v: string): Option<char> {
    if v == "" || (v[0] != '|' && v[0] != '>') then None
    else
      var rest := if |v| > 1 && (v[1] == '+' || v[1] == '-') then v[2..] else v[1..];
      if AllBlanks(rest) then Some(v[0]) else None
  }

  predicate IsQuote(c: char) { c == '\'' || c == '"' }

  function Dequote(value: string): string {
    var v := Strip(value, IsSpace);
    if |v| >= 2 && v[0] == v[|v| - 1] && IsQuote(v[0]) then v[1..|v| - 1] else v
  }

  // ----- what the patterns match -----

  predicate OnlyBlanks(s: string) { forall c :: c in s ==> c == ' ' || c == '\t' }

  predicate IsKey(s: string) {
    s != "" && forall c :: c in s ==> 'a' <= c <= 'z' || 'A' <= c <= 'Z' || '0' <= c <= '9' || c == '_'
  }

  lemma KeyIsWords(s: string)
    requires IsKey(s)
    ensures forall c :: c in s ==> IsWord(c)
  {
  }

  /** No more blanks could be taken before this. */
  predicate StartsOff(s: string) { s == "" || (s[0] != ' ' && s[0] != '\t') }

  lemma SkipBlanksIs(a: string, rest: string)
    requires OnlyBlanks(a) && StartsOff(rest)
    ensures SkipBlanks(a + rest) == rest
  {
    assert forall c :: c in a ==> IsBlank(c);
    RunOver(a, rest, IsBlank);
  }

  lemma BlanksBefore(s: string) returns (a: string)
    ensures OnlyBlanks(a) && s == a + SkipBlanks(s) && StartsOff(SkipBlanks(s))
  {
    a := s[..RunLength(s, IsBlank)];
  }

  lemma TopKeyIs(line: string)
    ensures IsTopKey(line) <==> exists b :: OnlyBlanks(b) && line == "known_hazards:" + b
  {
    if IsTopKey(line) {
      var b := line[14..];
      assert OnlyBlanks(b) && line == line[..14] + b;
    }
    forall b | OnlyBlanks(b) && line == "known_hazards:" + b ensures IsTopKey(line) {
      assert line[..14] == "known_hazards:" && line[14..] == b;
    }
  }

  lemma DashRestIs(raw: string, rest: string)
    ensures DashRest(raw) == Some(rest) <==>
              StartsOff(rest) && exists a, b :: OnlyBlanks(a) && OnlyBlanks(b) && b != "" && raw == a + "-" + b + rest
  {
    hide SkipBlanks, OnlyBlanks;
    var t := SkipBlanks(raw);
    if DashRest(raw) == Some(rest) {
      var a := BlanksBefore(raw);
      var b := BlanksBefore(t[1..]);
      assert t[1..][0] == t[1];
      assert raw == a + "-" + b + rest;
    }
    forall a, b | StartsOff(rest) && OnlyBlanks(a) && OnlyBlanks(b) && b != "" && raw == a + "-" + b + rest
      ensures DashRest(raw) == Some(rest)
    {
      var dashed := "-" + (b + rest);
      assert raw == a + dashed && dashed[1..] == b + rest;
      SkipBlanksIs(a, dashed);
      SkipBlanksIs(b, rest);
      FirstIsBlank(b);
    }
  }

  lemma FirstIsBlank(b: string)
    requires OnlyBlanks(b) && b != ""
    ensures IsBlank(b[0])
  {
    assert b[0] in b;
  }

  lemma KeyValueIs(s: string, key: string, value: string)
    ensures KeyValue(s) == Some((key, value)) <==>
              IsKey(key) && StartsOff(value) && exists b :: OnlyBlanks(b) && s == key + ":" + b + value
  {
    hide SkipBlanks, OnlyBlanks;
    var n := RunLength(s, IsWord);
    if KeyValue(s) == Some((key, value)) {
      var b := BlanksBefore(s[n + 1..]);
      assert s == key + ":" + b + value;
      assert forall c :: c in s[..n] ==> IsWord(c);
    }
    forall b | IsKey(key) && StartsOff(value) && OnlyBlanks(b) && s == key + ":" + b + value
      ensures KeyValue(s) == Some((key, value))
    {
      var rest := ":" + (b + value);
      assert s == key + rest && !IsWord(':');
      RunOver(key, rest, IsWord);
      assert s[..|key|] == key && s[|key|] == ':' && s[|key| + 1..] == b + value;
      SkipBlanksIs(b, value);
    }
  }

  lemma BlockStyleIs(v: string, style: char)
    ensures BlockStyle(v) == Some(style) <==>
              style in {'|', '>'} &&
              exists chomp, b :: chomp in {"", "+", "-"} && OnlyBlanks(b) && v == [style] + chomp + b
  {
    if BlockStyle(v) == Some(style) {
      var chomp := if |v| > 1 && (v[1] == '+' || v[1] == '-') then v[1..2] else "";
      var b := v[1 + |chomp|..];
      assert v == [style] + chomp + b;
      if |v| > 1 && (v[1] == '+' || v[1] == '-') { assert b == v[2..]; } else { assert b == v[1..]; }
      assert AllBlanks(b) && OnlyBlanks(b);
      assert chomp == "" || chomp == [v[1]];
    }
    forall chomp, b | style in {'|', '>'} && chomp in {"", "+", "-"} && OnlyBlanks(b) && v == [style] + chomp + b
      ensures BlockStyle(v) == Some(style)
    {
      if chomp == "" {
        assert v[1..] == b;
        if b != "" { assert v[1] == b[0] && b[0] in b; }
      } else {
        assert v[1] == chomp[0] && v[2..] == b;
      }
    }
  }

  /** A value loses one pair of equal quotes around it, and the white space around both. */
  lemma DequoteIs(value: string, quote: char, inner: string)
    ensures Strip(value, IsSpace) == [quote] + inner + [quote] && quote in {'\'', '"'} ==> Dequote(value) == inner
    ensures (forall q, s :: q in {'\'', '"'} ==> Strip(value, IsSpace) != [q] + s + [q]) ==> Dequote(value) == Strip(value, IsSpace)
  {
    hide Strip;
    var v := Strip(value, IsSpace);
    if v == [quote] + inner + [quote] && quote in {'\'', '"'} { assert v[1..|v| - 1] == inner; }
    if |v| >= 2 && v[0] == v[|v| - 1] && IsQuote(v[0]) { assert v == [v[0]] + v[1..|v| - 1] + [v[0]]; }
  }

  // ----- folding a block scalar -----

  predicate BlankLine(raw: string) { Strip(raw, IsSpace) == "" }

  /** The indentation of the first line that is not blank. */
  function ContentIndent(lines: seq<string>): Option<nat> {
    if lines == [] then None
    else if !BlankLine(lines[0]) then Some(Indent(lines[0]))
    else ContentIndent(lines[1..])
  }

  function Dedent(raw: string, n: nat): string {
    if |raw| > n then raw[n..] else raw[Indent(raw)..]
  }

  function DedentAll(lines: seq<string>, n: nat): seq<string> {
    if lines == [] then [] else [Dedent(lines[0], n)] + DedentAll(lines[1..], n)
  }

  function StrippedWords(lines: seq<string>): seq<string> {
    if lines == [] then []
    else if BlankLine(lines[0]) then StrippedWords(lines[1..])
    else [Strip(lines[0], IsSpace)] + StrippedWords(lines[1..])
  }

  function FoldBlock(lines: seq<string>, style: char): string {
    match ContentIndent(lines)
    case None => ""
    case Some(n) =>
      if style == '|' then RStrip(Join("\n", DedentAll(lines, n)), IsLineFeed)
      else Join(" ", StrippedWords(DedentAll(lines, n)))
  }

  // ----- the reader -----

  datatype Reader = Reader(
    entries: seq<Entry>, current: Option<Entry>, dash: Option<nat>, field: Option<nat>,
    key: Option<string>, style: char, block: seq<string>, stopped: bool)

  const START := Reader([], None, None, None, None, '>', [], false)

  /** close_block */
  function Close(r: Reader): Reader {
    r.(current := if r.key.Some? && r.current.Some? then
                    Some(r.current.value[r.key.value := FoldBlock(r.block, r.style)]) else r.current,
       key := None, block := [])
  }

  /** handle_key_value */
  function Handle(r: Reader, key: string, value: string): Reader {
    match BlockStyle(Strip(value, IsSpace))
    case Some(style) => r.(key := Some(key), style := style, block := [])
    case None => if r.current.Some? then r.(current := Some(r.current.value[key := Dequote(value)])) else r
  }

  function StartItem(r: Reader, raw: string, rest: string): Reader
    requires |rest| <= |raw|
  {
    var started := r.(entries := if r.current.Some? then r.entries + [r.current.value] else r.entries,
                      current := Some(map[]), dash := Some(Indent(raw)), field := None);
    match KeyValue(rest)
    case None => started
    case Some((key, value)) => Handle(started.(field := Some(|raw| - |rest|)), key, value)
  }

  function ReadField(r: Reader, raw: string): Reader {
    match KeyValue(Strip(raw, IsSpace))
    case None => r
    case Some((key, value)) =>
      if r.current == None then r
      else
        var field := if r.field == None then Indent(raw) else r.field.value;
        var r' := r.(field := Some(field));
        if Indent(raw) == field then Handle(r', key, value) else r'
  }

  predicate InBlock(r: Reader, raw: string) {
    r.key.Some? && Indent(raw) > (if r.field.Some? then r.field.value else 0)
  }

  /** One line after the top-level key. */
  function Step(r: Reader, raw: string): Reader {
    if r.stopped then r
    else if BlankLine(raw) then (if r.key.Some? then r.(block := r.block + [""]) else r)
    else if InBlock(r, raw) then r.(block := r.block + [raw])
    else StepOutside(Close(r), raw)
  }

  function StepOutside(r: Reader, raw: string): Reader {
    if Indent(raw) == 0 then r.(stopped := true)
    else
      DashRestIsShorter(raw);
      match DashRest(raw)
      case Some(rest) =>
        if r.dash == None || Indent(raw) <= r.dash.value then StartItem(r, raw, rest) else ReadField(r, raw)
      case None => ReadField(r, raw)
  }

  lemma DashRestIsShorter(raw: string)
    ensures DashRest(raw).Some? ==> |DashRest(raw).value| <= |raw|
  {
  }

  function Scan(r: Reader, lines: seq<string>): Reader
    decreases |lines|
  {
    if lines == [] then r else Scan(Step(r, lines[0]), lines[1..])
  }

  function Entries(r: Reader): seq<Entry> {
    var end := Close(r);
    if end.current.Some? then end.entries + [end.current.value] else end.entries
  }

  /** The lines after the first known_hazards: line, or nothing. */
  function AfterTopKey(lines: seq<string>): Option<seq<string>> {
    if lines == [] then None
    else if IsTopKey(lines[0]) then Some(lines[1..])
    else AfterTopKey(lines[1..])
  }

  function HazardEntries(lines: seq<string>): seq<Entry> {
    match AfterTopKey(lines)
    case None => []
    case Some(rest) => Entries(Scan(START, rest))
  }

  /** The loop of the reader, with its closures as methods over the shared variables. */
  class LineReader {
    var entries: seq<Entry>
    var current: Option<Entry>
    var dashIndent: Option<nat>
    var fieldIndent: Option<nat>
    var blockKey: Option<string>
    var blockStyle: char
    var blockLines: seq<string>

    function View(stopped: bool): Reader
      reads this
    {
      Reader(entries, current, dashIndent, fieldIndent, blockKey, blockStyle, blockLines, stopped)
    }

    constructor ()
      ensures View(false) == START
    {
      entries, current, dashIndent, fieldIndent := [], None, None, None;
      blockKey, blockStyle, blockLines := None, '>', [];
    }

    method CloseBlock()
      modifies this
      ensures View(false) == Close(old(View(false)))
    {
      if blockKey.Some? && current.Some? {
        current := Some(current.value[blockKey.value := FoldBlock(blockLines, blockStyle)]);
      }
      blockKey := None;
      blockLines := [];
    }

    method HandleKeyValue(key: string, value: string)
      modifies this
      ensures View(false) == Handle(old(View(false)), key, value)
    {
      var header := BlockStyle(Strip(value, IsSpace));
      if header.Some? {
        blockKey, blockStyle, blockLines := Some(key), header.value, [];
      } else if current.Some? {
        current := Some(current.value[key := Dequote(value)]);
      }
    }

    method BeginItem(raw: string, rest: string)
      requires |rest| <= |raw|
      modifies this
      ensures View(false) == StartItem(old(View(false)), raw, rest)
    {
      hide KeyValue, Handle, Indent;
      if current.Some? { entries := entries + [current.value]; }
      current, dashIndent, fieldIndent := Some(map[]), Some(Indent(raw)), None;
      var keyed := KeyValue(rest);
      if keyed.Some? {
        fieldIndent := Some(|raw| - |rest|);
        HandleKeyValue(keyed.value.0, keyed.value.1);
      }
    }

    method ReadFieldLine(raw: string)
      modifies this
      ensures View(false) == ReadField(old(View(false)), raw)
    {
      hide KeyValue, Handle, Indent, Strip;
      var keyed := KeyValue(Strip(raw, IsSpace));
      if keyed.Some? && current.Some? {
        if fieldIndent == None { fieldIndent := Some(Indent(raw)); }
        if Indent(raw) == fieldIndent.value { HandleKeyValue(keyed.value.0, keyed.value.1); }
      }
    }

    /** The body of the while loop; true when the block has ended. */
    method ReadLine(raw: string) returns (stopped: bool)
      modifies this
      ensures View(stopped) == Step(old(View(false)), raw)
    {
      hide StartItem, ReadField, FoldBlock, Indent, BlankLine, DashRest;
      stopped := false;
      if BlankLine(raw) {
        if blockKey.Some? { blockLines := blockLines + [""]; }
        return;
      }
      var indent := Indent(raw);
      if blockKey.Some? && indent > (if fieldIndent.Some? then fieldIndent.value else 0) {
        blockLines := blockLines + [raw];
        return;
      }
      CloseBlock();
      if indent == 0 { return true; }
      DashRestIsShorter(raw);
      var dash := DashRest(raw);
      if dash.Some? && (dashIndent == None || indent <= dashIndent.value) {
        BeginItem(raw, dash.value);
      } else {
        ReadFieldLine(raw);
      }
    }
  }

  lemma {:induction false} ScanAppend(r: Reader, a: seq<string>, b: seq<string>)
    ensures Scan(r, a + b) == Scan(Scan(r, a), b)
    decreases |a|
  {
    hide Step;
    if a == [] {
      assert a + b == b;
    } else {
      assert (a + b)[1..] == a[1..] + b;
      ScanAppend(Step(r, a[0]), a[1..], b);
    }
  }

  lemma {:induction false} ScanStopped(r: Reader, lines: seq<string>)
    requires r.stopped
    ensures Scan(r, lines) == r
    decreases |lines|
  {
    if lines != [] { ScanStopped(r, lines[1..]); }
  }

  /** _known_hazard_entries_from_manifest_yaml_text, from the split lines on. */
  method ReadHazards(lines: seq<string>) returns (entries: seq<Entry>)
    ensures entries == HazardEntries(lines)
  {
    hide Step;
    var start := 0;
    while start < |lines| && !IsTopKey(lines[start])
      invariant 0 <= start <= |lines|
      invariant AfterTopKey(lines) == AfterTopKey(lines[start..])
    {
      start := start + 1;
    }
    if start == |lines| { return []; }
    var rest := lines[start + 1..];
    assert AfterTopKey(lines) == Some(rest);
    var reader := new LineReader();
    var index, stopped := 0, false;
    while index < |rest| && !stopped
      invariant 0 <= index <= |rest|
      invariant reader.View(stopped) == Scan(START, rest[..index])
    {
      stopped := reader.ReadLine(rest[index]);
      assert rest[..index + 1] == rest[..index] + [rest[index]];
      ScanAppend(START, rest[..index], [rest[index]]);
      index := index + 1;
    }
    assert rest == rest[..index] + rest[index..];
    ScanAppend(START, rest[..index], rest[index..]);
    if stopped { ScanStopped(reader.View(true), rest[index..]); }
    reader.CloseBlock();
    entries := reader.entries + if reader.current.Some? then [reader.current.value] else [];
  }
}
