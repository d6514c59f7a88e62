/** The Python string operations that the modelled code is written with: strip, split, join and the
    prefix and suffix tests. Strings are sequences of code points. */
module PyText {

  /** str.isspace, which is also what str.strip() removes and what \s matches in a text pattern. */
  predicate IsSpace(c: char) {
    var n := c as int;
    || 0x09 <= n <= 0x0D || 0x1C <= n <= 0x20 || n == 0x85 || n == 0xA0 || n == 0x1680
    || 0x2000 <= n <= 0x200A || n == 0x2028 || n == 0x2029 || n == 0x202F || n == 0x205F || n == 0x3000
  }

  predicate IsDigit(c: char) { '0' <= c <= '9' }

  predicate IsBlank(c: char) { c == ' ' || c == '\t' }

  predicate IsSpaceChar(c: char) { c == ' ' }

  predicate IsLineFeed(c: char) { c == '\n' }

  /** n empty lines. */
  function Blanks(n: nat): seq<string> { if n == 0 then [] else [""] + Blanks(n - 1) }

  predicate StartsWith(s: string, prefix: string) {
    |prefix| <= |s| && s[..|prefix|] == prefix
  }

  predicate EndsWith(s: string, suffix: string) {
    |suffix| <= |s| && s[|s| - |suffix|..] == suffix
  }

  /** The first index from i on whose character is kept. */
  function FirstKept(s: string, drop: char -> bool, i: nat): (r: nat)
    requires i <= |s|
    ensures i <= r <= |s|
    ensures r < |s| ==> !drop(s[r])
    ensures forall k :: i <= k < r ==> drop(s[k])
    decreases |s| - i
  {
    if i < |s| && drop(s[i]) then FirstKept(s, drop, i + 1) else i
  }

  /** One past the last index in s[i..j] whose character is kept, or i. */
  function LastKept(s: string, drop: char -> bool, i: nat, j: nat): (r: nat)
    requires i <= j <= |s|
    ensures i <= r <= j
    ensures i < r ==> !drop(s[r - 1])
    ensures forall k :: r <= k < j ==> drop(s[k])
    decreases j
  {
    if i < j && drop(s[j - 1]) then LastKept(s, drop, i, j - 1) else j
  }

  function RStrip(s: string, drop: char -> bool): string {
    s[..LastKept(s, drop, 0, |s|)]
  }

  function Strip(s: string, drop: char -> bool): string {
    var i := FirstKept(s, drop, 0);
    s[i..LastKept(s, drop, i, |s|)]
  }

  lemma StripIsPiece(s: string, drop: char -> bool) returns (i: nat, j: nat)
    ensures i <= j <= |s| && Strip(s, drop) == s[i..j]
    ensures i < j ==> !drop(s[i]) && !drop(s[j - 1])
    ensures forall k :: 0 <= k < i || j <= k < |s| ==> drop(s[k])
  {
    i := FirstKept(s, drop, 0);
    j := LastKept(s, drop, i, |s|);
  }

  /** A piece with kept ends whose surroundings are all dropped is the stripped string. */
  lemma StripIs(s: string, drop: char -> bool, i: nat, j: nat)
    requires i < j <= |s|
    requires !drop(s[i]) && !drop(s[j - 1])
    requires forall k :: 0 <= k < i || j <= k < |s| ==> drop(s[k])
    ensures Strip(s, drop) == s[i..j]
  {
  }

  lemma RStripIs(s: string, drop: char -> bool, j: nat)
    requires j <= |s| && (j > 0 ==> !drop(s[j - 1]))
    requires forall k :: j <= k < |s| ==> drop(s[k])
    ensures RStrip(s, drop) == s[..j]
  {
  }

  /** A string whose two ends survive is left alone. */
  lemma StripKeeps(s: string, drop: char -> bool)
    requires s != "" ==> !drop(s[0]) && !drop(s[|s| - 1])
    ensures RStrip(s, drop) == s && Strip(s, drop) == s
  {
  }

  /** Strip is empty exactly when every character is dropped. */
  lemma StripEmpty(s: string, drop: char -> bool)
    ensures Strip(s, drop) == "" <==> forall i :: 0 <= i < |s| ==> drop(s[i])
  {
    var i, j := StripIsPiece(s, drop);
  }

  /** Dropped characters added at the end do not change the result. */
  lemma RStripOfDropped(s: string, tail: string, drop: char -> bool)
    requires forall i :: 0 <= i < |tail| ==> drop(tail[i])
    ensures RStrip(s + tail, drop) == RStrip(s, drop)
  {
    var j := LastKept(s, drop, 0, |s|);
    RStripIs(s + tail, drop, j);
    assert (s + tail)[..j] == s[..j];
  }

  lemma StripOfRStrip(s: string, drop: char -> bool)
    ensures Strip(RStrip(s, drop), drop) == Strip(s, drop)
    ensures RStrip(RStrip(s, drop), drop) == RStrip(s, drop)
  {
    var t := RStrip(s, drop);
    RStripIs(t, drop, |t|);
    assert t[..|t|] == t;
    var i, j := StripIsPiece(s, drop);
    if i < j {
      assert j <= |t|;
      StripIs(t, drop, i, j);
      assert t[i..j] == s[i..j];
    } else {
      StripEmpty(t, drop);
    }
  }

  /** s.split(sep): at least one part, and no part holds the separator. */
  function Split(s: string, sep: char): (parts: seq<string>)
    ensures |parts| >= 1
    ensures forall l :: l in parts ==> sep !in l
  {
    if s == "" then [""]
    else
      var rest := Split(s[1..], sep);
      if s[0] == sep then [""] + rest else [[s[0]] + rest[0]] + rest[1..]
  }

  function Lines(s: string): seq<string> { Split(s, '\n') }

  /** sep.join(lines). */
  function Join(sep: string, lines: seq<string>): string {
    if lines == [] then ""
    else if |lines| == 1 then lines[0]
    else lines[0] + sep + Join(sep, lines[1..])
  }

  lemma {:induction false} SplitOnePart(s: string, sep: char)
    requires sep !in s
    ensures Split(s, sep) == [s]
  {
    if s != "" {
      assert forall c :: c in s[1..] ==> c in s;
      SplitOnePart(s[1..], sep);
      assert s == [s[0]] + s[1..];
    }
  }

  lemma {:induction false} SplitFirstPart(first: string, sep: char, rest: string)
    requires sep !in first
    ensures Split(first + [sep] + rest, sep) == [first] + Split(rest, sep)
  {
    var s := first + [sep] + rest;
    if first == "" {
      assert s[1..] == rest;
    } else {
      assert forall c :: c in first[1..] ==> c in first;
      assert s[1..] == first[1..] + [sep] + rest;
      SplitFirstPart(first[1..], sep, rest);
      assert first == [first[0]] + first[1..];
    }
  }

  /** Splitting undoes joining when the parts hold no separator. */
  lemma {:induction false} SplitOfJoin(parts: seq<string>, sep: char)
    requires parts != []
    requires forall l :: l in parts ==> sep !in l
    ensures Split(Join([sep], parts), sep) == parts
  {
    hide Split;
    assert parts[0] in parts;
    if |parts| == 1 {
      SplitOnePart(parts[0], sep);
    } else {
      var rest := parts[1..];
      assert parts == [parts[0]] + rest;
      SplitOfJoin(rest, sep);
      SplitFirstPart(parts[0], sep, Join([sep], rest));
    }
  }

  /** Joining undoes splitting, always. */
  lemma {:induction false} JoinOfSplit(s: string, sep: char)
    ensures Join([sep], Split(s, sep)) == s
  {
    if s != "" {
      var rest := Split(s[1..], sep);
      JoinOfSplit(s[1..], sep);
      assert s == [s[0]] + s[1..];
      if s[0] == sep {
        assert ([""] + rest)[1..] == rest;
      } else {
        assert ([[s[0]] + rest[0]] + rest[1..])[1..] == rest[1..];
      }
    }
  }

  lemma JoinOfLines(s: string)
    ensures Join("\n", Lines(s)) == s
  {
    JoinOfSplit(s, '\n');
  }

  lemma LinesOfJoin(lines: seq<string>)
    requires lines != []
    requires forall l :: l in lines ==> '\n' !in l
    ensures Lines(Join("\n", lines)) == lines
  {
    SplitOfJoin(lines, '\n');
  }

  lemma Assoc<T>(a: seq<T>, b: seq<T>, c: seq<T>)
    ensures (a + b) + c == a + (b + c)
  {
  }

  /** How many characters at the start satisfy the test. */
  function RunLength(s: string, test: char -> bool): (n: nat)
    ensures n <= |s| && (n < |s| ==> !test(s[n]))
    ensures forall i :: 0 <= i < n ==> test(s[i])
  {
    if s != "" && test(s[0]) then 1 + RunLength(s[1..], test) else 0
  }

  lemma {:induction false} RunOver(prefix: string, rest: string, test: char -> bool)
    requires forall c :: c in prefix ==> test(c)
    requires rest == "" || !test(rest[0])
    ensures RunLength(prefix + rest, test) == |prefix|
  {
    if prefix == "" {
      assert prefix + rest == rest;
    } else {
      assert prefix[0] in prefix && forall c :: c in prefix[1..] ==> c in prefix;
      assert (prefix + rest)[1..] == prefix[1..] + rest;
      RunOver(prefix[1..], rest, test);
    }
  }

  lemma {:induction false} JoinAppend(sep: string, a: seq<string>, b: seq<string>)
    requires a != [] && b != []
    ensures Join(sep, a + b) == Join(sep, a) + sep + Join(sep, b)
  {
    if |a| == 1 {
      assert (a + b)[1..] == b;
    } else {
      assert (a + b)[1..] == a[1..] + b;
      JoinAppend(sep, a[1..], b);
    }
  }

  lemma StripIgnoresLast(s: string, c: char, drop: char -> bool)
    requires drop(c)
    ensures Strip(s + [c], drop) == Strip(s, drop)
  {
    hide Strip;
    var t := s + [c];
    assert t[|s|] == c && forall k :: 0 <= k < |s| ==> t[k] == s[k];
    var i, j := StripIsPiece(s, drop);
    if i < j {
      assert t[i..j] == s[i..j];
      StripIs(t, drop, i, j);
    } else {
      StripEmpty(s, drop);
      StripEmpty(t, drop);
    }
  }

  lemma StripIgnoresFirst(s: string, c: char, drop: char -> bool)
    requires drop(c)
    ensures Strip([c] + s, drop) == Strip(s, drop)
  {
    hide Strip;
    var t := [c] + s;
    assert t[0] == c && forall k :: 1 <= k < |t| ==> t[k] == s[k - 1];
    var i, j := StripIsPiece(s, drop);
    if i < j {
      assert t[i + 1..j + 1] == s[i..j];
      StripIs(t, drop, i + 1, j + 1);
    } else {
      StripEmpty(s, drop);
      StripEmpty(t, drop);
    }
  }

  /** int() of a run of digits. */
  function Value(digits: string): nat
    requires forall c :: c in digits ==> IsDigit(c)
  {
    if digits == "" then 0
    else
      var last := digits[|digits| - 1];
      assert last in digits && IsDigit(last);
      10 * Value(digits[..|digits| - 1]) + (last as int - '0' as int)
  }

  function Digit(n: nat): char
    requires n < 10
  {
    ('0' as int + n) as char
  }

  /** str() of a natural number. */
  function Decimal(n: nat): string {
    if n < 10 then [Digit(n)] else Decimal(n / 10) + [Digit(n % 10)]
  }

  lemma {:induction false} DecimalIsDigits(n: nat)
    ensures Decimal(n) != "" && forall c :: c in Decimal(n) ==> IsDigit(c)
    ensures Value(Decimal(n)) == n
  {
    if n >= 10 {
      DecimalIsDigits(n / 10);
      var d := Decimal(n);
      assert d[..|d| - 1] == Decimal(n / 10);
    } else {
      assert Decimal(n)[..0] == "";
    }
  }
}
