/** Byte-preserving surgery on the front matter of a page (infra/generate_furnished_page.py): three
    top-level keys get new text, a marker of the source commit is added or refreshed, and every other byte is
    copied. The rendered YAML blocks are parameters. */
module FrontMatter {
  import opened PyText

  // ----- top-level keys -----

  predicate IsKeyChar(c: char) { 'A' <= c <= 'Z' || 'a' <= c <= 'z' || IsDigit(c) || c == '_' }

  /** The length of the key at the start of the text, where `[A-Za-z0-9_]+:` matches; 0 if it does not. */
  function KeyLength(s: string): (n: nat)
    ensures n > 0 ==> n < |s| && s[n] == ':' && forall i :: 0 <= i < n ==> IsKeyChar(s[i])
  {
    var n := RunLength(s, IsKeyChar);
    if n < |s| && s[n] == ':' then n else 0
  }

  /** Exactly where the pattern matches: after n letters, digits or underscores, at least one, comes a colon. */
  lemma KeyLengthIs(s: string, n: nat)
    requires n > 0
    ensures KeyLength(s) == n <==>
              n < |s| && s[n] == ':' &&
              forall i :: 0 <= i < n ==> 'A' <= s[i] <= 'Z' || 'a' <= s[i] <= 'z' || '0' <= s[i] <= '9' || s[i] == '_'
  {
    if n < |s| && s[n] == ':' && forall i :: 0 <= i < n ==> IsKeyChar(s[i]) {
      assert s == s[..n] + s[n..] && !IsKeyChar(':');
      RunOver(s[..n], s[n..], IsKeyChar);
    }
  }

  /** A top-level key starts at this place: at the start of a line. */
  predicate KeyStart(s: string, i: nat) {
    i < |s| && (i == 0 || s[i - 1] == '\n') && KeyLength(s[i..]) > 0
  }

  /** The first top-level key from i on, or the end. */
  function NextKey(s: string, i: nat): (j: nat)
    requires i <= |s|
    ensures i <= j <= |s| && (j < |s| ==> KeyStart(s, j))
    ensures forall k :: i <= k < j ==> !KeyStart(s, k)
    decreases |s| - i
  {
    if i == |s| || KeyStart(s, i) then i else NextKey(s, i + 1)
  }

  datatype Span = Span(key: string, raw: string)

  function SpanAt(s: string, i: nat): Span
    requires KeyStart(s, i)
  {
    Span(s[i..][..KeyLength(s[i..])], s[i..NextKey(s, i + 1)])
  }

  function SpansFrom(s: string, i: nat): seq<Span>
    requires i <= |s| && (i < |s| ==> KeyStart(s, i))
    decreases |s| - i
  {
    if i == |s| then [] else [SpanAt(s, i)] + SpansFrom(s, NextKey(s, i + 1))
  }

  function Spans(s: string): seq<Span> { SpansFrom(s, NextKey(s, 0)) }

  function Leading(s: string): string { s[..NextKey(s, 0)] }

  function Concat(spans: seq<Span>): string {
    if spans == [] then "" else spans[0].raw + Concat(spans[1..])
  }

  /** The places are all the top-level keys, in order. */
  ghost predicate AreMatches(s: string, matches: seq<nat>) {
    && (forall k :: 0 <= k < |matches| ==> KeyStart(s, matches[k]))
    && (matches != [] ==> matches[0] == NextKey(s, 0))
    && (forall k :: 0 < k < |matches| ==> matches[k] == NextKey(s, matches[k - 1] + 1))
  }

  /** list(_TOP_LEVEL_KEY_RE.finditer(s)) */
  method KeyMatches(s: string) returns (matches: seq<nat>)
    ensures AreMatches(s, matches)
    ensures (if matches == [] then NextKey(s, 0) else NextKey(s, matches[|matches| - 1] + 1)) == |s|
  {
    hide KeyStart;
    matches := [];
    var next := NextKey(s, 0);
    while next < |s|
      invariant next <= |s| && (next < |s| ==> KeyStart(s, next)) && AreMatches(s, matches)
      invariant matches != [] ==> matches[|matches| - 1] < |s|
      invariant next == if matches == [] then NextKey(s, 0) else NextKey(s, matches[|matches| - 1] + 1)
    {
      matches := matches + [next];
      next := NextKey(s, next + 1);
    }
  }

  /** top_level_spans */
  method TopLevelSpans(s: string) returns (spans: seq<Span>)
    ensures spans == Spans(s)
  {
    hide KeyStart, NextKey, KeyLength;
    var matches := KeyMatches(s);
    spans := [];
    ghost var ends := matches + [|s|];
    for index := 0 to |matches|
      invariant ends[index] <= |s| && (ends[index] < |s| ==> KeyStart(s, ends[index]))
      invariant Spans(s) == spans + SpansFrom(s, ends[index])
    {
      var start := matches[index];
      assert KeyStart(s, start);
      KeyStartIsInside(s, start);
      var end := if index + 1 < |matches| then matches[index + 1] else |s|;
      assert end == NextKey(s, start + 1) == ends[index + 1];
      assert SpansFrom(s, start) == [SpanAt(s, start)] + SpansFrom(s, end);
      Assoc(spans, [SpanAt(s, start)], SpansFrom(s, end));
      spans := spans + [Span(s[start..][..KeyLength(s[start..])], s[start..end])];
    }
  }

  lemma KeyStartIsInside(s: string, i: nat)
    requires KeyStart(s, i)
    ensures i < |s|
  {
  }

  // ----- the fences -----

  predicate DashesAt(s: string, i: nat) { i + 3 <= |s| && s[i] == '-' && s[i + 1] == '-' && s[i + 2] == '-' }

  /** s.find("---", i), or the end. */
  function FindDashes(s: string, i: nat): (j: nat)
    requires i <= |s|
    ensures i <= j <= |s| && (j < |s| ==> DashesAt(s, j))
    ensures forall k :: i <= k < j ==> !DashesAt(s, k)
    decreases |s| - i
  {
    if i == |s| || DashesAt(s, i) then i else FindDashes(s, i + 1)
  }

  /** text.split("---", 2) in three parts. */
  datatype Page = Page(before: string, front: string, after: string) | Malformed

  function SplitPage(text: string): Page {
    var i := FindDashes(text, 0);
    if i == |text| then Malformed
    else
      var rest := text[i + 3..];
      var j := FindDashes(rest, 0);
      if j == |rest| then Malformed else Page(text[..i], rest[..j], rest[j + 3..])
  }

  function JoinPage(before: string, front: string, after: string): string {
    before + "---" + front + "---" + after
  }

  predicate NoDashes(s: string) { forall i :: 0 <= i < |s| ==> !DashesAt(s, i) }

  // ----- the surgery -----

  const REPLACED := ["overview", "content", "faq"]

  const MARKER := "doc_source_commit"

  const ANCHOR := "github_url"

  function MarkerText(commit: string): string { MARKER + ": " + commit + "\n" }

  function Keys(spans: seq<Span>): (keys: seq<string>)
    ensures |keys| == |spans| && forall i :: 0 <= i < |spans| ==> keys[i] == spans[i].key
  {
    seq(|spans|, i requires 0 <= i < |spans| => spans[i].key)
  }

  /** dict(spans): the last span of a key wins. */
  function RawByKey(spans: seq<Span>): map<string, string> {
    if spans == [] then map[]
    else
      var last := spans[|spans| - 1];
      RawByKey(spans[..|spans| - 1])[last.key := last.raw]
  }

  function IndexOf(keys: seq<string>, key: string): (i: nat)
    requires key in keys
    ensures i < |keys| && keys[i] == key
  {
    if keys[0] == key then 0 else 1 + IndexOf(keys[1..], key)
  }

  /** Where the marker is inserted: after the first `github_url`, else after the first span of the last key. */
  function InsertIndex(keys: seq<string>): (i: nat)
    requires keys != []
    ensures 0 < i <= |keys|
  {
    IndexOf(keys, if ANCHOR in keys then ANCHOR else keys[|keys| - 1]) + 1
  }

  function OrderOf(keys: seq<string>): seq<string>
    requires keys != []
  {
    if MARKER in keys then keys else keys[..InsertIndex(keys)] + [MARKER] + keys[InsertIndex(keys)..]
  }

  /** What a key's text is after the surgery: a new block, or the last text it had. */
  function NewRaw(spans: seq<Span>, block: string -> string, commit: string, key: string): string {
    if key == MARKER then MarkerText(commit)
    else if key in REPLACED then block(key)
    else if key in RawByKey(spans) then RawByKey(spans)[key] else ""
  }

  function NewSpans(spans: seq<Span>, block: string -> string, commit: string): seq<Span>
    requires spans != []
  {
    var order := OrderOf(Keys(spans));
    seq(|order|, i requires 0 <= i < |order| => Span(order[i], NewRaw(spans, block, commit, order[i])))
  }

  datatype Outcome = Written(text: string) | NoFrontMatter | MissingKey(key: string)

  function FirstMissing(keys: seq<string>, wanted: seq<string>): Outcome {
    if wanted == [] then Written("")
    else if wanted[0] !in keys then MissingKey(wanted[0])
    else FirstMissing(keys, wanted[1..])
  }

  predicate AllThere(wanted: seq<string>, keys: seq<string>) { forall key :: key in wanted ==> key in keys }

  predicate Complete(spans: seq<Span>) { AllThere(REPLACED, Keys(spans)) }

  function NewFront(front: string, block: string -> string, commit: string): string
    requires Spans(front) != []
  {
    Leading(front) + Concat(NewSpans(Spans(front), block, commit))
  }

  function Apply(original: string, block: string -> string, commit: string): Outcome {
    var page := SplitPage(original);
    if page == Malformed then NoFrontMatter
    else if !Complete(Spans(page.front)) then FirstMissing(Keys(Spans(page.front)), REPLACED)
    else
      assert "overview" in REPLACED;
      Written(JoinPage(page.before, NewFront(page.front, block, commit), page.after))
  }

  lemma {:induction false} RawByKeyHas(spans: seq<Span>)
    ensures forall key :: key in RawByKey(spans) <==> key in Keys(spans)
  {
    if spans != [] {
      var init := spans[..|spans| - 1];
      RawByKeyHas(init);
      assert Keys(spans) == Keys(init) + [spans[|spans| - 1].key];
    }
  }

  lemma {:induction false} FirstMissingIs(keys: seq<string>, wanted: seq<string>, i: nat)
    requires i < |wanted| && wanted[i] !in keys && AllThere(wanted[..i], keys)
    ensures FirstMissing(keys, wanted) == MissingKey(wanted[i])
  {
    if i > 0 {
      assert wanted[..i] == [wanted[0]] + wanted[1..][..i - 1];
      FirstMissingIs(keys, wanted[1..], i - 1);
    }
  }

  /** The texts of the keys, with the new blocks of the ones done. */
  ghost predicate HasBlocks(raw: map<string, string>, was: map<string, string>, done: seq<string>, block: string -> string) {
    raw.Keys == was.Keys && forall key :: key in raw ==> raw[key] == if key in done then block(key) else was[key]
  }

  lemma OneMoreBlock(raw: map<string, string>, was: map<string, string>, done: seq<string>, block: string -> string, key: string)
    requires HasBlocks(raw, was, done, block) && key in raw
    ensures HasBlocks(raw[key := block(key)], was, done + [key], block)
  {
  }

  lemma NoneIsThere(keys: seq<string>)
    ensures AllThere([], keys)
  {
  }

  lemma OneMoreThere(wanted: seq<string>, keys: seq<string>, i: nat)
    requires i < |wanted| && AllThere(wanted[..i], keys)
    ensures wanted[i] in keys ==> AllThere(wanted[..i + 1], keys)
    ensures wanted[i] !in keys ==> !AllThere(wanted, keys)
  {
    assert wanted[..i + 1] == wanted[..i] + [wanted[i]];
  }

  /** The first loop of _apply_fields_to_fixture: every key to replace must be there. */
  method ReplaceFields(spans: seq<Span>, wanted: seq<string>, block: string -> string)
    returns (rawByKey: map<string, string>, missing: seq<string>)
    ensures missing == [] <==> AllThere(wanted, Keys(spans))
    ensures missing != [] ==> FirstMissing(Keys(spans), wanted) == MissingKey(missing[0])
    ensures missing == [] ==> HasBlocks(rawByKey, RawByKey(spans), wanted, block)
  {
    hide RawByKey, FirstMissing, HasBlocks, AllThere, Keys;
    rawByKey := RawByKey(spans);
    missing := [];
    RawByKeyHas(spans);
    assert AllThere([], Keys(spans)) by { NoneIsThere(Keys(spans)); }
    assert HasBlocks(rawByKey, RawByKey(spans), [], block) by { NoBlocksYet(rawByKey, block); }
    for i := 0 to |wanted|
      invariant HasBlocks(rawByKey, RawByKey(spans), wanted[..i], block)
      invariant AllThere(wanted[..i], Keys(spans))
    {
      var key := wanted[i];
      OneMoreThere(wanted, Keys(spans), i);
      SameKeys(rawByKey, RawByKey(spans), wanted[..i], block);
      if key !in rawByKey {
        FirstMissingIs(Keys(spans), wanted, i);
        missing := [key];
        return;
      }
      OneMoreBlock(rawByKey, RawByKey(spans), wanted[..i], block, key);
      assert wanted[..i + 1] == wanted[..i] + [key];
      rawByKey := rawByKey[key := block(key)];
    }
    assert wanted[..|wanted|] == wanted;
  }

  lemma NoBlocksYet(raw: map<string, string>, block: string -> string)
    ensures HasBlocks(raw, raw, [], block)
  {
  }

  lemma SameKeys(raw: map<string, string>, was: map<string, string>, done: seq<string>, block: string -> string)
    requires HasBlocks(raw, was, done, block)
    ensures raw.Keys == was.Keys
  {
  }

  /** "".join(rawByKey[key] for key in order) */
  method JoinRaw(rawByKey: map<string, string>, order: seq<string>, ghost spans: seq<Span>) returns (text: string)
    requires forall key :: key in order ==> key in rawByKey
    requires |spans| == |order|
    requires forall i :: 0 <= i < |order| ==> rawByKey[order[i]] == spans[i].raw
    ensures text == Concat(spans)
  {
    text := "";
    ConcatNothing();
    for i := 0 to |order|
      invariant text == Concat(spans[..i])
    {
      ConcatOneMore(spans[..i], spans[i]);
      assert spans[..i + 1] == spans[..i] + [spans[i]];
      text := text + rawByKey[order[i]];
    }
    assert spans[..|order|] == spans;
  }

  /** _apply_fields_to_fixture, on the text of the fixture. */
  method ApplyFieldsToFixture(original: string, block: string -> string, commit: string) returns (outcome: Outcome)
    ensures outcome == Apply(original, block, commit)
  {
    hide SplitPage, Spans, Leading, RawByKey, FirstMissing, Concat, InsertIndex, REPLACED, ANCHOR, MARKER;
    var page := SplitPage(original);
    if page == Malformed { return NoFrontMatter; }
    var leading := Leading(page.front);
    var spans := TopLevelSpans(page.front);
    var rawByKey, missing := ReplaceFields(spans, REPLACED, block);
    if missing != [] { return MissingKey(missing[0]); }
    CompleteIsNotEmpty(spans);
    RawByKeyHas(spans);
    var order := Keys(spans);
    rawByKey := rawByKey[MARKER := MarkerText(commit)];
    if MARKER !in order {
      var insertIndex := InsertIndex(order);
      order := order[..insertIndex] + [MARKER] + order[insertIndex..];
    }
    OrderedKeysAreKnown(Keys(spans));
    var text := JoinRaw(rawByKey, order, NewSpans(spans, block, commit));
    outcome := Written(JoinPage(page.before, leading + text, page.after));
  }

  lemma CompleteIsNotEmpty(spans: seq<Span>)
    requires Complete(spans)
    ensures spans != []
  {
    assert "overview" in REPLACED;
  }

  lemma OrderedKeysAreKnown(keys: seq<string>)
    requires keys != []
    ensures forall key :: key in OrderOf(keys) ==> key in keys || key == MARKER
  {
  }

  lemma ConcatNothing()
    ensures Concat([]) == ""
  {
  }

  lemma {:induction false} ConcatOneMore(spans: seq<Span>, span: Span)
    ensures Concat(spans + [span]) == Concat(spans) + span.raw
  {
    if spans == [] {
      assert [] + [span] == [span] && [span][1..] == [];
    } else {
      assert (spans + [span])[1..] == spans[1..] + [span];
      ConcatOneMore(spans[1..], span);
    }
  }

  // ----- the spans are the text -----

  lemma {:induction false} ConcatSpansFrom(s: string, i: nat)
    requires i <= |s| && (i < |s| ==> KeyStart(s, i))
    ensures Concat(SpansFrom(s, i)) == s[i..]
    decreases |s| - i
  {
    hide KeyStart, KeyLength, NextKey;
    if i < |s| {
      var j := NextKey(s, i + 1);
      ConcatSpansFrom(s, j);
      var spans := SpansFrom(s, i);
      assert spans[1..] == SpansFrom(s, j);
      assert s[i..] == s[i..j] + s[j..];
    }
  }

  /** The leading text and the spans, in order, are the front matter, byte for byte. */
  lemma SpansAreTheText(s: string)
    ensures Leading(s) + Concat(Spans(s)) == s
  {
    hide SpansFrom, Concat;
    ConcatSpansFrom(s, NextKey(s, 0));
  }

  /** A text that starts with the key and holds no other top-level key. */
  predicate IsBlock(span: Span) {
    && 0 < KeyLength(span.raw) == |span.key| && span.raw[..|span.key|] == span.key
    && forall i :: 0 < i < |span.raw| ==> !KeyStart(span.raw, i)
  }

  predicate EndsLine(s: string) { s != "" && s[|s| - 1] == '\n' }

  /** Blocks one after another; every block but the last ends its line. */
  predicate AreBlocks(spans: seq<Span>) {
    && (forall i :: 0 <= i < |spans| ==> IsBlock(spans[i]))
    && (forall i :: 0 <= i < |spans| - 1 ==> EndsLine(spans[i].raw))
  }

  predicate NoKeys(s: string) { forall i :: 0 <= i < |s| ==> !KeyStart(s, i) }

  /** A key match lies within its line, so what follows the line plays no part. */
  lemma KeyInLine(line: string, rest: string)
    requires line != "" && (EndsLine(line) || rest == "")
    ensures KeyLength(line + rest) == KeyLength(line)
  {
    var s, n := line + rest, RunLength(line, IsKeyChar);
    if rest == "" {
      assert s == line;
    } else {
      assert n < |line|;
      assert line == line[..n] + line[n..] && s == line[..n] + (line[n..] + rest);
      assert forall c :: c in line[..n] ==> IsKeyChar(c);
      RunOver(line[..n], line[n..] + rest, IsKeyChar);
    }
  }

  /** The key starts of a piece that begins a line are those of the whole text. */
  lemma KeyStartInPiece(before: string, piece: string, rest: string, i: nat)
    requires before == "" || EndsLine(before)
    requires EndsLine(piece) || rest == ""
    requires i < |piece|
    ensures KeyStart(before + piece + rest, |before| + i) <==> KeyStart(piece, i)
  {
    var s := before + piece + rest;
    assert s[|before| + i..] == piece[i..] + rest;
    KeyInLine(piece[i..], rest);
    assert i > 0 ==> s[|before| + i - 1] == piece[i - 1];
    assert before != "" ==> s[|before| - 1] == before[|before| - 1];
  }

  lemma NextKeyIs(s: string, i: nat, j: nat)
    requires i <= j <= |s| && (j < |s| ==> KeyStart(s, j))
    requires forall k :: i <= k < j ==> !KeyStart(s, k)
    ensures NextKey(s, i) == j
  {
  }

  /** The spans of blocks one after another are the blocks. */
  lemma {:induction false} SpansOfBlocks(before: string, spans: seq<Span>)
    requires before == "" || EndsLine(before)
    requires AreBlocks(spans)
    ensures var s := before + Concat(spans);
            (|before| < |s| ==> KeyStart(s, |before|)) && SpansFrom(s, |before|) == spans
    decreases |spans|
  {
    hide KeyStart, KeyLength, NextKey, IsBlock, SpanAt, AreBlocks, EndsLine, Concat, SpansFrom;
    if spans == [] {
      ConcatNothing();
      assert before + Concat(spans) == before;
      NoSpansAtTheEnd(before);
    } else {
      var raw, tail := spans[0].raw, spans[1..];
      ConcatHasFirst(spans);
      Assoc(before, raw, Concat(tail));
      FirstBlock(spans);
      if tail == [] {
        ConcatNothing();
        NoSpansAtTheEnd(before + Concat(spans));
      } else {
        EndsLineAppend(before, raw);
        SpansOfBlocks(before + raw, tail);
      }
      BlockIsASpan(before, spans[0], Concat(tail));
      ThenSpans(before + Concat(spans), |before|, spans[0], tail);
    }
  }

  lemma NoSpansAtTheEnd(s: string)
    ensures SpansFrom(s, |s|) == []
  {
  }

  lemma FirstBlock(spans: seq<Span>)
    requires AreBlocks(spans) && spans != []
    ensures IsBlock(spans[0]) && AreBlocks(spans[1..]) && (spans[1..] != [] ==> EndsLine(spans[0].raw))
  {
    hide IsBlock, EndsLine;
  }

  lemma ThenSpans(s: string, i: nat, span: Span, tail: seq<Span>)
    requires i < |s| && KeyStart(s, i) && SpanAt(s, i) == span
    requires SpansFrom(s, NextKey(s, i + 1)) == tail
    ensures SpansFrom(s, i) == [span] + tail
  {
    hide KeyStart, NextKey, SpanAt;
  }

  lemma EndsLineAppend(a: string, b: string)
    requires EndsLine(b)
    ensures EndsLine(a + b)
  {
  }

  lemma BlockKeys(span: Span)
    requires IsBlock(span)
    ensures span.raw != "" && KeyStart(span.raw, 0) && forall i :: 0 < i < |span.raw| ==> !KeyStart(span.raw, i)
  {
    assert span.raw[0..] == span.raw;
  }

  lemma BlockStarts(before: string, span: Span, rest: string)
    requires before == "" || EndsLine(before)
    requires IsBlock(span) && (EndsLine(span.raw) || rest == "")
    ensures KeyStart(before + span.raw + rest, |before|)
  {
    hide KeyLength, KeyStart, IsBlock;
    BlockKeys(span);
    KeyStartInPiece(before, span.raw, rest, 0);
  }

  lemma BlockHasNoOtherKey(before: string, span: Span, rest: string, k: nat)
    requires before == "" || EndsLine(before)
    requires IsBlock(span) && (EndsLine(span.raw) || rest == "")
    requires |before| < k < |before| + |span.raw|
    ensures !KeyStart(before + span.raw + rest, k)
  {
    hide KeyLength, KeyStart, IsBlock;
    BlockKeys(span);
    KeyStartInPiece(before, span.raw, rest, k - |before|);
  }

  lemma BlockEnds(before: string, span: Span, rest: string)
    requires before == "" || EndsLine(before)
    requires IsBlock(span) && (EndsLine(span.raw) || rest == "")
    requires rest != "" ==> KeyStart(before + span.raw + rest, |before| + |span.raw|)
    ensures |before| < |before + span.raw + rest|
    ensures NextKey(before + span.raw + rest, |before| + 1) == |before| + |span.raw|
  {
    hide KeyLength, KeyStart, IsBlock, EndsLine;
    BlockKeys(span);
    var s, j := before + span.raw + rest, |before| + |span.raw|;
    forall k | |before| + 1 <= k < j ensures !KeyStart(s, k) {
      BlockHasNoOtherKey(before, span, rest, k);
    }
    NextKeyIs(s, |before| + 1, j);
  }

  lemma BlockKeyReads(before: string, span: Span, rest: string)
    requires IsBlock(span) && (EndsLine(span.raw) || rest == "")
    ensures var t := (before + span.raw + rest)[|before|..];
            KeyLength(t) == |span.key| && t[..|span.key|] == span.key
  {
    hide KeyLength;
    assert (before + span.raw + rest)[|before|..] == span.raw + rest;
    KeyInLine(span.raw, rest);
    assert (span.raw + rest)[..|span.key|] == span.raw[..|span.key|];
  }

  lemma BlockIsASpan(before: string, span: Span, rest: string)
    requires before == "" || EndsLine(before)
    requires IsBlock(span) && (EndsLine(span.raw) || rest == "")
    requires rest != "" ==> KeyStart(before + span.raw + rest, |before| + |span.raw|)
    ensures var s := before + span.raw + rest;
            && KeyStart(s, |before|) && NextKey(s, |before| + 1) == |before| + |span.raw|
            && SpanAt(s, |before|) == span
  {
    hide KeyLength, KeyStart, NextKey, IsBlock, EndsLine;
    BlockStarts(before, span, rest);
    BlockEnds(before, span, rest);
    BlockKeyReads(before, span, rest);
    assert (before + span.raw + rest)[|before|..|before| + |span.raw|] == span.raw;
  }

  // ----- the front matter as blocks -----

  lemma {:induction false} SpansFromAreBlocks(s: string, i: nat)
    requires i <= |s| && (i < |s| ==> KeyStart(s, i))
    ensures AreBlocks(SpansFrom(s, i))
    ensures s != "" && i < |s| && EndsLine(s) ==> EndsLine(SpansFrom(s, i)[|SpansFrom(s, i)| - 1].raw)
    decreases |s| - i
  {
    hide KeyStart, NextKey, IsBlock, SpanAt, KeyLength, AreBlocks, EndsLine;
    if i < |s| {
      var j := NextKey(s, i + 1);
      var rest := SpansFrom(s, j);
      SpanIsABlock(s, i);
      SpansFromAreBlocks(s, j);
      BlockThenBlocks(SpanAt(s, i), rest);
    } else {
      assert AreBlocks([]) by { NoBlocksAreBlocks(); }
    }
  }

  lemma NoBlocksAreBlocks()
    ensures AreBlocks([])
  {
  }

  lemma BlockThenBlocks(span: Span, rest: seq<Span>)
    requires IsBlock(span) && AreBlocks(rest) && (rest != [] ==> EndsLine(span.raw))
    ensures AreBlocks([span] + rest)
  {
    hide IsBlock, EndsLine;
    var all := [span] + rest;
    assert forall i :: 1 <= i < |all| ==> all[i] == rest[i - 1];
  }

  lemma SpanIsABlock(s: string, i: nat)
    requires KeyStart(s, i)
    ensures IsBlock(SpanAt(s, i))
    ensures NextKey(s, i + 1) < |s| || EndsLine(s) ==> EndsLine(SpanAt(s, i).raw)
  {
    hide KeyLength, NextKey;
    var j := NextKey(s, i + 1);
    var raw := s[i..j];
    SpanEndsItsLine(s, i, j);
    PieceKeyReads(s, i, j);
    forall k | 0 < k < |raw| ensures !KeyStart(raw, k) {
      if KeyStart(raw, k) { PieceKeyStart(s, i, j, k); }
    }
  }

  lemma SpanEndsItsLine(s: string, i: nat, j: nat)
    requires KeyStart(s, i) && i < j <= |s| && (j < |s| ==> KeyStart(s, j))
    ensures j < |s| || EndsLine(s) ==> EndsLine(s[i..j])
  {
  }

  /** The key at the start of a span that ends its line, or ends the text, is the key of the text there. */
  lemma PieceKeyReads(s: string, i: nat, j: nat)
    requires i < j <= |s| && (EndsLine(s[i..j]) || j == |s|)
    ensures KeyLength(s[i..j]) == KeyLength(s[i..])
  {
    hide KeyLength;
    assert s[i..] == s[i..j] + s[j..];
    KeyInLine(s[i..j], s[j..]);
  }

  lemma PieceKeyStart(s: string, i: nat, j: nat, k: nat)
    requires i < j <= |s| && (EndsLine(s[i..j]) || j == |s|) && 0 < k < j - i
    ensures KeyStart(s[i..j], k) <==> KeyStart(s, i + k)
  {
    hide KeyLength;
    assert s[i..j][k..] == s[i + k..j];
    assert EndsLine(s[i + k..j]) || j == |s|;
    PieceKeyReads(s, i + k, j);
  }

  lemma LeadingFacts(front: string)
    requires Spans(front) != []
    ensures NoKeys(Leading(front)) && (Leading(front) == "" || EndsLine(Leading(front)))
    ensures AreBlocks(Spans(front))
    ensures EndsLine(front) ==> EndsLine(Spans(front)[|Spans(front)| - 1].raw)
  {
    hide KeyLength, IsBlock;
    var j := NextKey(front, 0);
    SpansFromAreBlocks(front, j);
    NoKeysBefore(front, j);
  }

  lemma NoKeysBefore(s: string, j: nat)
    requires j < |s| && KeyStart(s, j) && forall k :: 0 <= k < j ==> !KeyStart(s, k)
    ensures NoKeys(s[..j]) && (j == 0 || EndsLine(s[..j]))
  {
    if j > 0 {
      assert s[j - 1] == '\n';
      hide KeyLength, KeyStart;
      forall k | 0 <= k < j ensures !KeyStart(s[..j], k) {
        assert s == "" + s[..j] + s[j..];
        KeyStartInPiece("", s[..j], s[j..], k);
      }
    }
  }

  lemma ConcatHasFirst(spans: seq<Span>)
    requires spans != []
    ensures Concat(spans) == spans[0].raw + Concat(spans[1..])
  {
  }

  lemma LeadingThenBlocks(leading: string, spans: seq<Span>)
    requires NoKeys(leading) && (leading == "" || EndsLine(leading))
    requires AreBlocks(spans) && spans != []
    ensures Spans(leading + Concat(spans)) == spans && Leading(leading + Concat(spans)) == leading
  {
    hide KeyStart, NextKey, IsBlock, Concat, AreBlocks, EndsLine, NoKeys;
    var s := leading + Concat(spans);
    SpansOfBlocks(leading, spans);
    assert IsBlock(spans[0]) by { FirstBlock(spans); }
    BlockKeys(spans[0]);
    ConcatHasFirst(spans);
    KeepsNoKeys(leading, Concat(spans));
    NextKeyIs(s, 0, |leading|);
    assert s[..|leading|] == leading;
  }

  lemma KeepsNoKeys(leading: string, rest: string)
    requires NoKeys(leading) && (leading == "" || EndsLine(leading))
    ensures forall k :: 0 <= k < |leading| ==> !KeyStart(leading + rest, k)
  {
    hide KeyStart, EndsLine;
    forall k | 0 <= k < |leading| ensures !KeyStart(leading + rest, k) {
      assert leading + rest == "" + leading + rest;
      KeyStartInPiece("", leading, rest, k);
    }
  }

  // ----- the new front matter reads back -----

  /** A rendered block: its key in column 0, no other key there, and a final newline. */
  predicate GoodBlock(key: string, text: string) { IsBlock(Span(key, text)) && EndsLine(text) }

  predicate GoodFields(block: string -> string, commit: string) {
    && (forall key :: key in REPLACED ==> GoodBlock(key, block(key)))
    && GoodBlock(MARKER, MarkerText(commit))
  }

  /** One line of `key: value` is a good block; so is the marker, for a commit on one line. */
  lemma OneLineIsGood(key: string, value: string)
    requires key != "" && (forall c :: c in key ==> IsKeyChar(c)) && '\n' !in value
    ensures GoodBlock(key, key + (": " + value + "\n"))
  {
    var rest := ": " + value + "\n";
    var text := key + rest;
    RunOver(key, rest, IsKeyChar);
    assert text[|key|] == rest[0] == ':';
    assert text[..|key|] == key;
    forall i | 0 < i < |text| ensures !KeyStart(text, i) {
      assert text[i - 1] == if i - 1 < |key| then key[i - 1] else rest[i - 1 - |key|];
      assert i - 1 < |key| ==> key[i - 1] in key;
    }
  }

  lemma MarkerIsGood(commit: string)
    requires '\n' !in commit
    ensures GoodBlock(MARKER, MarkerText(commit))
  {
    OneLineIsGood(MARKER, commit);
    assert MarkerText(commit) == MARKER + (": " + commit + "\n");
  }

  predicate IsNew(key: string) { key == MARKER || key in REPLACED }

  /** The text ends with a newline, or its last key gets new text, or it stays last and comes only once. */
  predicate Joins(front: string)
    requires Spans(front) != []
  {
    var keys := Keys(Spans(front));
    var last := keys[|keys| - 1];
    EndsLine(front) || IsNew(last) || last !in OrderOf(keys)[..|OrderOf(keys)| - 1]
  }

  lemma {:induction false} RawByKeyIs(spans: seq<Span>, key: string) returns (i: nat)
    requires key in RawByKey(spans)
    ensures i < |spans| && spans[i] == Span(key, RawByKey(spans)[key])
    ensures forall j :: i < j < |spans| ==> spans[j].key != key
  {
    var init, last := spans[..|spans| - 1], spans[|spans| - 1];
    if last.key == key { i := |spans| - 1; } else { i := RawByKeyIs(init, key); }
  }

  lemma KeptRawIsASpan(spans: seq<Span>, block: string -> string, commit: string, key: string) returns (i: nat)
    requires key in Keys(spans) && !IsNew(key)
    ensures i < |spans| && spans[i] == Span(key, NewRaw(spans, block, commit, key))
    ensures forall j :: i < j < |spans| ==> spans[j].key != key
  {
    hide RawByKey;
    RawByKeyHas(spans);
    i := RawByKeyIs(spans, key);
  }

  lemma NewSpanIsABlock(front: string, block: string -> string, commit: string, i: nat)
    requires var spans := Spans(front);
             spans != [] && GoodFields(block, commit) && i < |OrderOf(Keys(spans))|
    ensures IsBlock(NewSpans(Spans(front), block, commit)[i])
    ensures Joins(front) && i < |OrderOf(Keys(Spans(front)))| - 1 ==> EndsLine(NewSpans(Spans(front), block, commit)[i].raw)
  {
    hide Spans, OrderOf, IsBlock, RawByKey, MarkerText, REPLACED, MARKER, EndsLine;
    var spans := Spans(front);
    var key := OrderOf(Keys(spans))[i];
    OrderedKeysAreKnown(Keys(spans));
    assert key in OrderOf(Keys(spans));
    if !IsNew(key) {
      var k := KeptRawIsASpan(spans, block, commit, key);
      LeadingFacts(front);
      if i < |OrderOf(Keys(spans))| - 1 { assert key in OrderOf(Keys(spans))[..|OrderOf(Keys(spans))| - 1]; }
    }
  }

  lemma LastRawEnds(front: string)
    requires Spans(front) != []
    ensures EndsLine(front) <==> EndsLine(Spans(front)[|Spans(front)| - 1].raw)
  {
    hide Spans, IsBlock, Leading;
    var spans := Spans(front);
    var init, last := spans[..|spans| - 1], spans[|spans| - 1];
    SpansAreTheText(front);
    LeadingFacts(front);
    assert spans == init + [last];
    ConcatOneMore(init, last);
    assert last.raw != "" by { BlockKeys(last); }
  }

  /** The new text reads back as the spans it was built from, in their order, exactly when what comes after
      the old last line starts a new one. */
  lemma NewFrontReadsBack(front: string, block: string -> string, commit: string)
    requires GoodFields(block, commit) && Spans(front) != []
    ensures Spans(NewFront(front, block, commit)) == NewSpans(Spans(front), block, commit) <==> Joins(front)
    ensures Joins(front) ==> Leading(NewFront(front, block, commit)) == Leading(front)
  {
    hide Spans, OrderOf, IsBlock, GoodFields, NewRaw, Leading, Concat, EndsLine, REPLACED, MARKER, ANCHOR;
    var news := NewSpans(Spans(front), block, commit);
    LeadingFacts(front);
    assert |news| > 0 by { OrderIsNotEmpty(Keys(Spans(front))); }
    if Joins(front) {
      forall i | 0 <= i < |news| ensures IsBlock(news[i]) && (i < |news| - 1 ==> EndsLine(news[i].raw)) {
        NewSpanIsABlock(front, block, commit, i);
      }
      LeadingThenBlocks(Leading(front), news);
    } else {
      NotJoined(front, block, commit);
      if Spans(NewFront(front, block, commit)) == news { LeadingFacts(NewFront(front, block, commit)); }
    }
  }

  lemma OrderIsNotEmpty(keys: seq<string>)
    requires keys != []
    ensures OrderOf(keys) != []
  {
  }

  lemma NotJoined(front: string, block: string -> string, commit: string)
    requires Spans(front) != [] && !Joins(front)
    ensures !AreBlocks(NewSpans(Spans(front), block, commit))
  {
    hide Spans, OrderOf, IsBlock, RawByKey, REPLACED, MARKER, EndsLine;
    var spans := Spans(front);
    var keys, order := Keys(spans), OrderOf(Keys(spans));
    var last := keys[|keys| - 1];
    var i :| 0 <= i < |order[..|order| - 1]| && order[..|order| - 1][i] == last;
    var k := KeptRawIsASpan(spans, block, commit, last);
    assert k == |spans| - 1;
    LastRawEnds(front);
    assert NewSpans(spans, block, commit)[i].raw == spans[k].raw;
  }

  // ----- the fences of the new page -----

  predicate EndsDash(s: string) { s != "" && s[|s| - 1] == '-' }

  /** A front matter in which the closing fence is the first one. */
  predicate Closed(front: string) { NoDashes(front) && !EndsDash(front) }

  lemma DashesInPiece(before: string, piece: string, rest: string, i: nat)
    requires DashesAt(piece, i)
    ensures DashesAt(before + piece + rest, |before| + i)
  {
    var s := before + piece + rest;
    assert forall k :: 0 <= k < |piece| ==> s[|before| + k] == piece[k];
  }

  lemma FindDashesIs(s: string, i: nat, j: nat)
    requires i <= j < |s| && DashesAt(s, j) && forall k :: i <= k < j ==> !DashesAt(s, k)
    ensures FindDashes(s, i) == j
  {
  }

  /** The first fence after a piece is the one that follows it exactly when the piece is closed. */
  lemma FirstFence(piece: string, rest: string)
    ensures FindDashes(piece + "---" + rest, 0) == |piece| <==> Closed(piece)
  {
    var s := piece + "---" + rest;
    assert s[|piece|] == '-' && s[|piece| + 1] == '-' && s[|piece| + 2] == '-';
    if !NoDashes(piece) {
      var k :| 0 <= k < |piece| && DashesAt(piece, k);
      DashesInPiece("", piece, "---" + rest, k);
      assert s == "" + piece + ("---" + rest);
    } else if EndsDash(piece) {
      assert DashesAt(s, |piece| - 1);
    } else {
      forall k | 0 <= k < |piece| ensures !DashesAt(s, k) {
        assert forall m :: 0 <= m < |piece| ==> s[m] == piece[m];
        assert !DashesAt(piece, k) && piece[|piece| - 1] != '-';
      }
      FindDashesIs(s, 0, |piece|);
    }
  }

  /** The parts of a page are closed, and together they are the page. */
  lemma SplitPageParts(text: string)
    requires SplitPage(text) != Malformed
    ensures var page := SplitPage(text);
            Closed(page.before) && Closed(page.front) && text == JoinPage(page.before, page.front, page.after)
  {
    var i := FindDashes(text, 0);
    var rest := text[i + 3..];
    var j := FindDashes(rest, 0);
    AtFence(text, i);
    AtFence(rest, j);
    FirstFence(text[..i], rest);
    FirstFence(rest[..j], rest[j + 3..]);
    JoinOfParts(text, i, j);
  }

  lemma AtFence(s: string, i: nat)
    requires i < |s| && DashesAt(s, i)
    ensures s == s[..i] + "---" + s[i + 3..]
  {
    assert s[i..i + 3] == "---";
  }

  lemma JoinOfParts(text: string, i: nat, j: nat)
    requires i + 3 <= |text| && j + 3 <= |text[i + 3..]|
    requires text == text[..i] + "---" + text[i + 3..]
    requires var rest := text[i + 3..]; rest == rest[..j] + "---" + rest[j + 3..]
    ensures var rest := text[i + 3..]; text == JoinPage(text[..i], rest[..j], rest[j + 3..])
  {
    var rest := text[i + 3..];
    assert text[..i] + "---" + (rest[..j] + "---" + rest[j + 3..]) == JoinPage(text[..i], rest[..j], rest[j + 3..]);
  }

  /** A page splits into the parts it was joined from exactly when its front matter is closed. */
  lemma SplitOfJoin(before: string, front: string, after: string)
    requires Closed(before)
    ensures SplitPage(JoinPage(before, front, after)) == Page(before, front, after) <==> Closed(front)
  {
    hide Closed, FindDashes;
    var text, rest := JoinPage(before, front, after), front + "---" + after;
    assert text == before + "---" + rest;
    FirstFence(before, rest);
    FirstFence(front, after);
    assert text[..|before|] == before && text[|before| + 3..] == rest;
    var j := FindDashes(rest, 0);
    assert j == |front| ==> rest[..j] == front && rest[j + 3..] == after;
  }

  lemma ClosedTail(a: string, b: string)
    requires a == "" || EndsLine(a)
    ensures NoDashes(a + b) <==> NoDashes(a) && NoDashes(b)
  {
    var s := a + b;
    if !NoDashes(a) {
      var k :| 0 <= k < |a| && DashesAt(a, k);
      assert s == "" + a + b;
      DashesInPiece("", a, b, k);
    } else if !NoDashes(b) {
      var k :| 0 <= k < |b| && DashesAt(b, k);
      assert s == a + b + "";
      DashesInPiece(a, b, "", k);
    } else {
      forall k | 0 <= k < |s| ensures !DashesAt(s, k) {
        assert k < |a| ==> !DashesAt(a, k);
        assert k >= |a| ==> !DashesAt(b, k - |a|);
        assert forall m :: 0 <= m < |a| ==> s[m] == a[m];
        assert forall m :: |a| <= m < |s| ==> s[m] == b[m - |a|];
      }
    }
  }

  /** Blocks one after another hold no fence exactly when none of them does. */
  lemma {:induction false} NoDashesInBlocks(spans: seq<Span>)
    requires AreBlocks(spans)
    ensures NoDashes(Concat(spans)) <==> forall i :: 0 <= i < |spans| ==> NoDashes(spans[i].raw)
  {
    hide NoDashes, IsBlock, AreBlocks, EndsLine, Concat;
    if spans == [] {
      ConcatNothing();
      assert NoDashes("") by { EmptyHasNoDashes(); }
    } else {
      FirstBlock(spans);
      ConcatHasFirst(spans);
      var raw, tail := spans[0].raw, spans[1..];
      NoDashesInBlocks(tail);
      if tail == [] {
        ConcatNothing();
        assert raw + "" == raw;
      } else {
        ClosedTail(raw, Concat(tail));
      }
      assert forall i :: 0 <= i < |spans| ==> spans[i].raw == if i == 0 then raw else tail[i - 1].raw;
    }
  }

  lemma EmptyHasNoDashes()
    ensures NoDashes("")
  {
  }

  lemma {:induction false} ConcatEnds(spans: seq<Span>)
    requires AreBlocks(spans) && spans != []
    ensures EndsDash(Concat(spans)) <==> EndsDash(spans[|spans| - 1].raw)
    ensures Concat(spans) != ""
  {
    hide IsBlock;
    var init, last := spans[..|spans| - 1], spans[|spans| - 1];
    assert spans == init + [last];
    ConcatOneMore(init, last);
    BlockKeys(last);
  }

  /** The rendered blocks hold no `---`. */
  predicate NoDashesRendered(block: string -> string, commit: string) {
    (forall key :: key in REPLACED ==> NoDashes(block(key))) && NoDashes(MarkerText(commit))
  }

  lemma ClosedFrontParts(front: string)
    requires Closed(front) && Spans(front) != []
    ensures NoDashes(Leading(front))
    ensures forall i :: 0 <= i < |Spans(front)| ==> NoDashes(Spans(front)[i].raw)
    ensures !EndsDash(Spans(front)[|Spans(front)| - 1].raw)
  {
    hide Spans, Leading, NoDashes, IsBlock, AreBlocks, Concat, EndsLine;
    var spans := Spans(front);
    LeadingFacts(front);
    SpansAreTheText(front);
    ClosedTail(Leading(front), Concat(spans));
    NoDashesInBlocks(spans);
    ConcatEnds(spans);
  }

  /** The new front matter is closed exactly when no rendered block holds `---`. */
  lemma NewFrontCloses(front: string, block: string -> string, commit: string)
    requires GoodFields(block, commit) && Spans(front) != [] && Complete(Spans(front)) && Joins(front) && Closed(front)
    ensures Closed(NewFront(front, block, commit)) <==> NoDashesRendered(block, commit)
  {
    hide Spans, Leading, NoDashes, IsBlock, AreBlocks, Concat, EndsLine, GoodFields, OrderOf, NewRaw, Complete, REPLACED;
    var spans, news := Spans(front), NewSpans(Spans(front), block, commit);
    LeadingFacts(front);
    ClosedFrontParts(front);
    NewSpansBlocks(front, block, commit);
    ClosedTail(Leading(front), Concat(news));
    NoDashesInBlocks(news);
    NewSpansClosed(front, block, commit);
    ConcatEnds(news);
    LastNewSpanEnds(front, block, commit);
  }

  lemma NewSpansBlocks(front: string, block: string -> string, commit: string)
    requires GoodFields(block, commit) && Spans(front) != [] && Joins(front)
    ensures AreBlocks(NewSpans(Spans(front), block, commit)) && NewSpans(Spans(front), block, commit) != []
  {
    hide Spans, OrderOf, IsBlock, GoodFields, NewRaw, EndsLine, Joins;
    var news := NewSpans(Spans(front), block, commit);
    OrderIsNotEmpty(Keys(Spans(front)));
    forall i | 0 <= i < |news| ensures IsBlock(news[i]) && (i < |news| - 1 ==> EndsLine(news[i].raw)) {
      NewSpanIsABlock(front, block, commit, i);
    }
  }

  lemma NewSpansClosed(front: string, block: string -> string, commit: string)
    requires Spans(front) != [] && Complete(Spans(front))
    requires forall i :: 0 <= i < |Spans(front)| ==> NoDashes(Spans(front)[i].raw)
    ensures var news := NewSpans(Spans(front), block, commit);
            (forall i :: 0 <= i < |news| ==> NoDashes(news[i].raw)) <==> NoDashesRendered(block, commit)
  {
    hide Spans, NoDashes, RawByKey, MarkerText, REPLACED, MARKER, InsertIndex;
    var spans, news := Spans(front), NewSpans(Spans(front), block, commit);
    var order := OrderOf(Keys(spans));
    OrderHasAll(Keys(spans));
    OrderedKeysAreKnown(Keys(spans));
    if NoDashesRendered(block, commit) {
      forall i | 0 <= i < |news| ensures NoDashes(news[i].raw) {
        if !IsNew(order[i]) { var k := KeptRawIsASpan(spans, block, commit, order[i]); }
      }
    }
    if forall i :: 0 <= i < |news| ==> NoDashes(news[i].raw) {
      forall key | IsNew(key) ensures NoDashes(NewRaw(spans, block, commit, key)) {
        assert key in order;
        var i :| 0 <= i < |order| && order[i] == key;
        assert NoDashes(news[i].raw);
      }
      MarkerIsNoField(block, commit, spans);
      assert IsNew(MARKER) && NewRaw(spans, block, commit, MARKER) == MarkerText(commit);
      forall key | key in REPLACED ensures NoDashes(block(key)) { assert IsNew(key); }
    }
  }

  lemma MarkerIsNoField(block: string -> string, commit: string, spans: seq<Span>)
    ensures forall key :: key in REPLACED ==> NewRaw(spans, block, commit, key) == block(key)
  {
    assert MARKER !in REPLACED;
  }

  lemma OrderHasAll(keys: seq<string>)
    requires keys != []
    ensures MARKER in OrderOf(keys) && forall key :: key in keys ==> key in OrderOf(keys)
  {
    hide InsertIndex;
    if MARKER !in keys {
      var i := InsertIndex(keys);
      assert keys == keys[..i] + keys[i..];
      assert (keys[..i] + [MARKER] + keys[i..])[i] == MARKER;
    }
  }

  lemma LastNewSpanEnds(front: string, block: string -> string, commit: string)
    requires GoodFields(block, commit) && Spans(front) != [] && !EndsDash(Spans(front)[|Spans(front)| - 1].raw)
    ensures var news := NewSpans(Spans(front), block, commit);
            news != [] && !EndsDash(news[|news| - 1].raw)
  {
    hide Spans, RawByKey, MarkerText, REPLACED, MARKER, InsertIndex, IsBlock;
    var spans := Spans(front);
    var order := OrderOf(Keys(spans));
    OrderIsNotEmpty(Keys(spans));
    OrderedKeysAreKnown(Keys(spans));
    var key := order[|order| - 1];
    LeadingFacts(front);
    if !IsNew(key) {
      var k := KeptRawIsASpan(spans, block, commit, key);
    }
  }

  // ----- what the surgery promises -----

  /** The page that was written. */
  lemma WrittenPage(original: string, block: string -> string, commit: string)
    requires Apply(original, block, commit).Written?
    requires GoodFields(block, commit) && Joins(SplitPage(original).front)
    ensures var page, text := SplitPage(original), Apply(original, block, commit).text;
            SplitPage(text) == Page(page.before, NewFront(page.front, block, commit), page.after)
            <==> NoDashesRendered(block, commit)
  {
    hide FindDashes, Spans, Complete, NoDashesRendered, GoodFields, Joins, Closed, JoinPage, NewFront, SplitPage;
    var page := SplitPage(original);
    WrittenMeansComplete(original, block, commit);
    SplitPageParts(original);
    NewFrontCloses(page.front, block, commit);
    SplitOfJoin(page.before, NewFront(page.front, block, commit), page.after);
  }

  lemma WrittenMeansComplete(original: string, block: string -> string, commit: string)
    requires Apply(original, block, commit).Written?
    ensures SplitPage(original).Page? && Complete(Spans(SplitPage(original).front)) && Spans(SplitPage(original).front) != []
    ensures Apply(original, block, commit).text ==
            JoinPage(SplitPage(original).before, NewFront(SplitPage(original).front, block, commit), SplitPage(original).after)
  {
    hide Spans, SplitPage, NewFront;
    var spans := Spans(SplitPage(original).front);
    if SplitPage(original).Page? { FirstMissingTells(Keys(spans), REPLACED); }
    assert "overview" in REPLACED;
  }

  lemma {:induction false} FirstMissingTells(keys: seq<string>, wanted: seq<string>)
    ensures FirstMissing(keys, wanted).Written? <==> forall key :: key in wanted ==> key in keys
  {
    if wanted != [] {
      FirstMissingTells(keys, wanted[1..]);
      assert wanted == [wanted[0]] + wanted[1..];
    }
  }

  lemma NewSpanKeys(spans: seq<Span>, block: string -> string, commit: string)
    requires spans != []
    ensures Keys(NewSpans(spans, block, commit)) == OrderOf(Keys(spans))
  {
    hide OrderOf;
  }

  /** Rewriting the new spans changes none of them. */
  lemma NewSpansOfNewSpans(spans: seq<Span>, block: string -> string, commit: string)
    requires spans != []
    ensures NewSpans(spans, block, commit) != []
    ensures NewSpans(NewSpans(spans, block, commit), block, commit) == NewSpans(spans, block, commit)
  {
    hide RawByKey, MarkerText, REPLACED, MARKER, InsertIndex;
    var news := NewSpans(spans, block, commit);
    NewSpanKeys(spans, block, commit);
    OrderHasAll(Keys(spans));
    var order := OrderOf(Keys(spans));
    assert OrderOf(order) == order;
    RawByKeyHas(news);
    forall i | 0 <= i < |order| ensures NewRaw(news, block, commit, order[i]) == NewRaw(spans, block, commit, order[i]) {
      if !IsNew(order[i]) {
        assert order[i] in Keys(news);
        var k := RawByKeyIs(news, order[i]);
      }
    }
  }

  /** Applying the same fields twice gives the text of applying them once. */
  lemma ApplyTwice(original: string, block: string -> string, commit: string)
    requires Apply(original, block, commit).Written?
    requires GoodFields(block, commit) && NoDashesRendered(block, commit) && Joins(SplitPage(original).front)
    ensures Apply(Apply(original, block, commit).text, block, commit) == Apply(original, block, commit)
  {
    hide Spans, Leading, NoDashesRendered, GoodFields, Joins, JoinPage, SplitPage, NewSpans, Concat, Complete, FirstMissing, REPLACED;
    var page := SplitPage(original);
    var spans := Spans(page.front);
    WrittenMeansComplete(original, block, commit);
    WrittenPage(original, block, commit);
    NewFrontReadsBack(page.front, block, commit);
    NewSpansOfNewSpans(spans, block, commit);
    StillComplete(spans, block, commit);
  }

  lemma StillComplete(spans: seq<Span>, block: string -> string, commit: string)
    requires Complete(spans) && spans != []
    ensures Complete(NewSpans(spans, block, commit))
  {
    hide REPLACED;
    NewSpanKeys(spans, block, commit);
    OrderHasAll(Keys(spans));
  }

  // ----- the other keys -----

  /** The spans the surgery has no new text for. */
  function Others(spans: seq<Span>): seq<Span> {
    if spans == [] then []
    else (if IsNew(spans[0].key) then [] else [spans[0]]) + Others(spans[1..])
  }

  lemma {:induction false} OthersAppend(a: seq<Span>, b: seq<Span>)
    ensures Others(a + b) == Others(a) + Others(b)
  {
    hide IsNew;
    if a == [] {
      assert a + b == b;
    } else {
      assert (a + b)[1..] == a[1..] + b;
      OthersAppend(a[1..], b);
    }
  }

  function Renewed(spans: seq<Span>, all: seq<Span>, block: string -> string, commit: string): (r: seq<Span>)
    ensures |r| == |spans|
    ensures forall i :: 0 <= i < |spans| ==> r[i] == Span(spans[i].key, NewRaw(all, block, commit, spans[i].key))
  {
    seq(|spans|, i requires 0 <= i < |spans| => Span(spans[i].key, NewRaw(all, block, commit, spans[i].key)))
  }

  /** The new spans are the old ones renewed, with the marker inserted if it was not there. */
  lemma NewSpansAreRenewed(spans: seq<Span>, block: string -> string, commit: string)
    requires spans != []
    ensures Others(NewSpans(spans, block, commit)) == Others(Renewed(spans, spans, block, commit))
  {
    hide RawByKey, MarkerText, REPLACED, InsertIndex, Others, NewRaw;
    var news, renewed := NewSpans(spans, block, commit), Renewed(spans, spans, block, commit);
    if MARKER in Keys(spans) {
      assert news == renewed;
    } else {
      var i := InsertIndex(Keys(spans));
      var marker := Span(MARKER, NewRaw(spans, block, commit, MARKER));
      assert news == renewed[..i] + [marker] + renewed[i..];
      OthersAppend(renewed[..i] + [marker], renewed[i..]);
      OthersAppend(renewed[..i], [marker]);
      assert Others([marker]) == [] by { MarkerIsNoOther(marker); }
      OthersAppend(renewed[..i], renewed[i..]);
      assert renewed == renewed[..i] + renewed[i..];
    }
  }

  lemma MarkerIsNoOther(marker: Span)
    requires marker.key == MARKER
    ensures Others([marker]) == []
  {
    assert Others([marker][1..]) == [];
  }

  /** Two of the spans with the same key have the same text. */
  ghost predicate SameKeySameText(spans: seq<Span>) {
    forall i, j :: 0 <= i < |spans| && 0 <= j < |spans| && spans[i].key == spans[j].key ==> spans[i].raw == spans[j].raw
  }

  lemma {:induction false} OthersOfRenewed(spans: seq<Span>, all: seq<Span>, block: string -> string, commit: string)
    ensures Others(Renewed(spans, all, block, commit)) == Renewed(Others(spans), all, block, commit)
  {
    hide NewRaw, IsNew;
    if spans != [] {
      var tail, r := spans[1..], Renewed(spans, all, block, commit);
      OthersOfRenewed(tail, all, block, commit);
      assert r[1..] == Renewed(tail, all, block, commit);
    }
  }

  lemma {:induction false} OthersAreSpans(spans: seq<Span>)
    ensures forall span :: span in Others(spans) <==> span in spans && !IsNew(span.key)
  {
    hide IsNew;
    if spans != [] {
      OthersAreSpans(spans[1..]);
      assert spans == [spans[0]] + spans[1..];
    }
  }

  /** Every other span keeps its text and its place, exactly when no two of them have one key and two texts:
      of two such spans the last is written twice. */
  lemma OthersAreUnchanged(front: string, block: string -> string, commit: string)
    requires GoodFields(block, commit) && Spans(front) != [] && Joins(front)
    ensures Others(Spans(NewFront(front, block, commit))) == Others(Spans(front))
            <==> SameKeySameText(Others(Spans(front)))
  {
    hide Spans, NewFront, GoodFields, Joins, NewSpans, Others;
    var spans := Spans(front);
    NewFrontReadsBack(front, block, commit);
    NewSpansAreRenewed(spans, block, commit);
    OthersOfRenewed(spans, spans, block, commit);
    RenewedIsSame(spans, block, commit);
  }

  /** The new text of another key is the text of one of its spans. */
  lemma RenewedTextIsThere(spans: seq<Span>, block: string -> string, commit: string, span: Span)
    requires span in Others(spans)
    ensures Span(span.key, NewRaw(spans, block, commit, span.key)) in Others(spans)
  {
    hide RawByKey, IsNew, Others, NewRaw;
    OthersAreSpans(spans);
    KeyOfSpan(spans, span);
    var j := KeptRawIsASpan(spans, block, commit, span.key);
    assert spans[j] in spans;
  }

  lemma RenewedIsSame(spans: seq<Span>, block: string -> string, commit: string)
    ensures Renewed(Others(spans), spans, block, commit) == Others(spans) <==> SameKeySameText(Others(spans))
  {
    hide Others, NewRaw;
    var others := Others(spans);
    var renewed := Renewed(others, spans, block, commit);
    if SameKeySameText(others) {
      forall i | 0 <= i < |others| ensures renewed[i] == others[i] {
        RenewedTextIsThere(spans, block, commit, others[i]);
        var k :| 0 <= k < |others| && others[k] == renewed[i];
        assert others[i].key == others[k].key;
      }
    }
    if renewed == others {
      assert forall i :: 0 <= i < |others| ==> others[i].raw == renewed[i].raw;
    }
  }

  lemma KeyOfSpan(spans: seq<Span>, span: Span)
    requires span in spans
    ensures span.key in Keys(spans)
  {
    var i :| 0 <= i < |spans| && spans[i] == span;
    assert Keys(spans)[i] == span.key;
  }
}
