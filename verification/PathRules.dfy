/** Path patterns of a card (ops/gatectl.py) and the three-way claim test of `_overlap_problems`
    (ops/gatecli.py). Case folding is a parameter: any map of characters to strings that leaves the
    two separators '/' and '*' alone and produces neither from another character. */
module PathRules {
  import opened PyText

  ghost predicate KeepsSeparators(f: char -> string) {
    && f('/') == "/"
    && f('*') == "*"
    && forall c :: f(c) != "" && (c != '/' && c != '*' ==> '/' !in f(c) && '*' !in f(c))
  }

  type Folding = f: char -> string | KeepsSeparators(f) ghost witness (c: char) => [c]

  function Fold(f: char -> string, s: string): string {
    if s == "" then "" else f(s[0]) + Fold(f, s[1..])
  }

  predicate IsSlash(c: char) { c == '/' }

  predicate IsSlashOrStar(c: char) { c == '/' || c == '*' }

  /** p.replace("\\", "/") */
  function Slashes(p: string): string {
    if p == "" then "" else [if p[0] == '\\' then '/' else p[0]] + Slashes(p[1..])
  }

  lemma {:induction false} SlashesHasNoBackslash(p: string)
    ensures '\\' !in Slashes(p) && |Slashes(p)| == |p|
    ensures '\\' !in p ==> Slashes(p) == p
  {
    if p != "" {
      SlashesHasNoBackslash(p[1..]);
      assert p == [p[0]] + p[1..];
    }
  }

  function NormPath(p: string): string {
    Strip(Strip(Slashes(p), IsSpace), IsSlash)
  }

  /** Backslashes count as slashes. */
  lemma BackslashIsSlash(a: string, b: string)
    ensures NormPath(a + "\\" + b) == NormPath(a + "/" + b)
  {
    SlashesSplit(a, '\\', b);
    SlashesSplit(a, '/', b);
    assert a + "\\" + b == a + ['\\'] + b && a + "/" + b == a + ['/'] + b;
  }

  lemma {:induction false} SlashesSplit(a: string, c: char, b: string)
    ensures Slashes(a + [c] + b) == Slashes(a) + [if c == '\\' then '/' else c] + Slashes(b)
  {
    var s := a + [c] + b;
    if a == "" {
      assert s[0] == c && s[1..] == b;
    } else {
      assert s[0] == a[0] && s[1..] == a[1..] + [c] + b;
      SlashesSplit(a[1..], c, b);
    }
  }

  function Folded(f: char -> string, path: string): string { Fold(f, NormPath(path)) }

  // What `q` is anchored at: the pattern without its final "/**" or "/*".
  function Base(q: string): string {
    if EndsWith(q, "/**") then q[..|q| - 3] else if EndsWith(q, "/*") then q[..|q| - 2] else q
  }

  /** path_matches on two strings that are already normalised and folded. */
  predicate MatchFolded(p: string, q: string) {
    if EndsWith(q, "/**") then
      var base := q[..|q| - 3];
      p == base || StartsWith(p, base + "/")
    else if EndsWith(q, "/*") then
      var base := q[..|q| - 2];
      StartsWith(p, base + "/") && '/' !in p[|base| + 1..]
    else p == q
  }

  predicate PathMatches(f: char -> string, path: string, pattern: string) {
    MatchFolded(Folded(f, path), Folded(f, pattern))
  }

  predicate MatchesAny(f: char -> string, path: string, patterns: seq<string>) {
    exists pattern :: pattern in patterns && PathMatches(f, path, pattern)
  }

  // ----- matching is by whole segments -----

  function Segments(p: string): seq<string> { Split(p, '/') }

  lemma {:induction false} SegmentsOfExtension(base: string, rest: string)
    ensures Segments(base + "/" + rest) == Segments(base) + Segments(rest)
  {
    if base == "" {
      SplitFirstPart("", '/', rest);
      assert "" + "/" + rest == [] + ['/'] + rest;
    } else {
      SegmentsOfExtension(base[1..], rest);
      var whole := base + "/" + rest;
      assert whole[0] == base[0] && whole[1..] == base[1..] + "/" + rest;
    }
  }

  lemma SegmentsDistinguish(a: string, b: string)
    requires Segments(a) == Segments(b)
    ensures a == b
  {
    JoinOfSplit(a, '/');
    JoinOfSplit(b, '/');
  }

  lemma SegmentPrefixIsTextPrefix(base: string, p: string)
    requires |Segments(base)| < |Segments(p)| && Segments(base) == Segments(p)[..|Segments(base)|]
    ensures p == base + "/" + Join("/", Segments(p)[|Segments(base)|..])
    ensures Segments(Join("/", Segments(p)[|Segments(base)|..])) == Segments(p)[|Segments(base)|..]
  {
    var k := |Segments(base)|;
    var rest := Segments(p)[k..];
    JoinOfSplit(p, '/');
    JoinOfSplit(base, '/');
    assert Segments(p) == Segments(base) + rest;
    JoinAppend("/", Segments(base), rest);
    assert "/" == ['/'];
    SplitOfJoin(rest, '/');
  }

  // `a/b/**` is everything at or below a/b, `a/b/*` is exactly one segment below it, and any other
  // pattern is itself; a longer sibling name (`src/reg` and `src/regression`) never matches.
  lemma MatchIsBySegments(p: string, q: string)
    ensures EndsWith(q, "/**") ==>
              (MatchFolded(p, q) <==> Segments(Base(q)) <= Segments(p))
    ensures !EndsWith(q, "/**") && EndsWith(q, "/*") ==>
              (MatchFolded(p, q) <==>
               |Segments(p)| == |Segments(Base(q))| + 1 && Segments(Base(q)) <= Segments(p))
    ensures !EndsWith(q, "/**") && !EndsWith(q, "/*") ==>
              (MatchFolded(p, q) <==> Segments(p) == Segments(q))
  {
    var base := Base(q);
    if StartsWith(p, base + "/") {
      var rest := p[|base| + 1..];
      assert p == base + "/" + rest;
      SegmentsOfExtension(base, rest);
      if '/' !in rest { SplitOnePart(rest, '/'); }
      if '/' in rest && |Segments(rest)| == 1 {
        JoinOfSplit(rest, '/');
        assert rest == Segments(rest)[0];
      }
    }
    if Segments(base) <= Segments(p) {
      if |Segments(base)| == |Segments(p)| {
        SegmentsDistinguish(base, p);
      } else {
        SegmentPrefixIsTextPrefix(base, p);
        var rest := Join("/", Segments(p)[|Segments(base)|..]);
        assert p[..|base| + 1] == base + "/";
        assert p[|base| + 1..] == rest;
      }
    }
    if Segments(p) == Segments(q) { SegmentsDistinguish(p, q); }
  }

  // ----- the claim test of two cards -----

  /** The pattern with its trailing slashes and stars removed, then normalised and folded. */
  function Stem(f: char -> string, pattern: string): string {
    Folded(f, RStrip(pattern, IsSlashOrStar))
  }

  /** The three-way test of `_overlap_problems` on two write patterns. */
  predicate ClaimsOverlap(f: char -> string, x: string, y: string) {
    || Folded(f, x) == Folded(f, y)
    || PathMatches(f, RStrip(y, IsSlashOrStar), x)
    || PathMatches(f, RStrip(x, IsSlashOrStar), y)
  }

  /** Trimming slashes and stars from the pattern takes away its wildcard and nothing else. */
  predicate Tidy(f: char -> string, pattern: string) {
    Stem(f, pattern) == Base(Folded(f, pattern))
  }

  lemma PrefixesNest(p: string, a: string, b: string)
    requires StartsWith(p, a + "/") && StartsWith(p, b + "/") && |a| <= |b|
    ensures a == b || StartsWith(b, a + "/")
  {
    assert a == p[..|a|] && b == p[..|b|] && p[..|a| + 1] == a + "/";
    if |a| < |b| { assert b[..|a| + 1] == p[..|a| + 1]; }
  }

  lemma SharedPathMeetsTest(p: string, qx: string, qy: string)
    requires MatchFolded(p, qx) && MatchFolded(p, qy)
    requires |Base(qx)| <= |Base(qy)|
    ensures qx == qy || MatchFolded(Base(qy), qx) || MatchFolded(Base(qx), qy)
  {
    var baseX, baseY := Base(qx), Base(qy);
    if EndsWith(qx, "/**") {
      if EndsWith(qy, "/**") || EndsWith(qy, "/*") {
        if p != baseX && p != baseY { PrefixesNest(p, baseX, baseY); }
      }
    } else if EndsWith(qx, "/*") {
      if p != baseY {
        PrefixesNest(p, baseX, baseY);
        assert p[|baseY|] == '/';
        assert forall i :: |baseX| < i < |p| ==> p[i] == p[|baseX| + 1..][i - |baseX| - 1];
        if EndsWith(qy, "/*") {
          assert qx == baseX + "/*" && qy == baseY + "/*";
        }
      }
    }
  }

  /** Two tidy patterns that share a path are always reported. */
  lemma TidyOverlapIsReported(f: char -> string, x: string, y: string, path: string)
    requires Tidy(f, x) && Tidy(f, y)
    requires PathMatches(f, path, x) && PathMatches(f, path, y)
    ensures ClaimsOverlap(f, x, y)
  {
    var p, qx, qy := Folded(f, path), Folded(f, x), Folded(f, y);
    if |Base(qx)| <= |Base(qy)| { SharedPathMeetsTest(p, qx, qy); } else { SharedPathMeetsTest(p, qy, qx); }
  }

  // ----- tidiness is exactly what the test needs -----

  lemma {:induction false} FoldAppend(f: char -> string, s: string, t: string)
    ensures Fold(f, s + t) == Fold(f, s) + Fold(f, t)
  {
    if s == "" {
      assert s + t == t;
    } else {
      assert (s + t)[1..] == s[1..] + t;
      FoldAppend(f, s[1..], t);
    }
  }

  lemma FoldOne(f: char -> string, c: char)
    ensures Fold(f, [c]) == f(c)
  {
  }

  lemma {:induction false} FoldKeepsSeparators(f: Folding, s: string, c: char)
    requires c == '/' || c == '*'
    ensures c in Fold(f, s) <==> c in s
  {
    if s != "" {
      FoldKeepsSeparators(f, s[1..], c);
      assert s == [s[0]] + s[1..];
    }
  }

  /** Folding neither makes nor loses a final separator. */
  lemma {:induction false} FoldEnd(f: Folding, s: string, c: char)
    requires c == '/' || c == '*'
    ensures EndsWith(Fold(f, s), [c]) <==> EndsWith(s, [c])
  {
    if s != "" {
      var init, last := s[..|s| - 1], s[|s| - 1];
      assert s == init + [last];
      FoldAppend(f, init, [last]);
      FoldOne(f, last);
      FoldKeepsSeparators(f, [last], c);
      var folded := Fold(f, s);
      assert folded[|folded| - |f(last)|..] == f(last);
      assert folded[|folded| - 1] == f(last)[|f(last)| - 1];
    }
  }

  ghost predicate OnlySeparators(s: string) { forall c :: c in s ==> c == '/' || c == '*' }

  lemma {:induction false} FoldOfSeparators(f: Folding, s: string)
    requires OnlySeparators(s)
    ensures Fold(f, s) == s
  {
    if s != "" {
      assert s[0] in s && forall c :: c in s[1..] ==> c in s;
      FoldOfSeparators(f, s[1..]);
      assert s == [s[0]] + s[1..];
    }
  }

  lemma {:induction false} FoldSuffixBack(f: Folding, x: string, suffix: string)
    requires OnlySeparators(suffix) && EndsWith(Fold(f, x), suffix)
    ensures EndsWith(x, suffix)
  {
    if suffix != "" {
      var c, shorter := suffix[|suffix| - 1], suffix[..|suffix| - 1];
      assert suffix == shorter + [c];
      assert c in suffix && forall d :: d in shorter ==> d in suffix;
      EndsWithLast(Fold(f, x), suffix);
      FoldEnd(f, x, c);
      var init := x[..|x| - 1];
      assert x == init + [c];
      FoldAppend(f, init, [c]);
      FoldOne(f, c);
      AppendBoth(Fold(f, init), shorter, c);
      FoldSuffixBack(f, init, shorter);
      AppendBoth(init, shorter, c);
    }
  }

  lemma FoldSuffix(f: Folding, x: string, suffix: string)
    requires OnlySeparators(suffix)
    ensures EndsWith(Fold(f, x), suffix) <==> EndsWith(x, suffix)
    ensures EndsWith(x, suffix) ==> Fold(f, x) == Fold(f, x[..|x| - |suffix|]) + suffix
  {
    if EndsWith(x, suffix) {
      assert x == x[..|x| - |suffix|] + suffix;
      FoldAppend(f, x[..|x| - |suffix|], suffix);
      FoldOfSeparators(f, suffix);
    }
    if EndsWith(Fold(f, x), suffix) { FoldSuffixBack(f, x, suffix); }
  }

  /** Folding a pattern folds its base and keeps its wildcard. */
  lemma FoldBase(f: Folding, x: string)
    ensures EndsWith(Fold(f, x), "/**") <==> EndsWith(x, "/**")
    ensures EndsWith(Fold(f, x), "/*") <==> EndsWith(x, "/*")
    ensures Base(Fold(f, x)) == Fold(f, Base(x))
  {
    FoldSuffix(f, x, "/**");
    FoldSuffix(f, x, "/*");
  }

  lemma EndsWithLast(x: string, suffix: string)
    requires suffix != "" && EndsWith(x, suffix)
    ensures EndsWith(x, [suffix[|suffix| - 1]])
  {
    assert x[|x| - 1] == x[|x| - |suffix|..][|suffix| - 1];
  }

  lemma AppendBoth(s: string, suffix: string, c: char)
    ensures EndsWith(s + [c], suffix + [c]) <==> EndsWith(s, suffix)
  {
    if |suffix| <= |s| {
      assert (s + [c])[|s| - |suffix|..] == s[|s| - |suffix|..] + [c];
      if EndsWith(s + [c], suffix + [c]) {
        assert (suffix + [c])[..|suffix|] == suffix;
        assert (s[|s| - |suffix|..] + [c])[..|suffix|] == s[|s| - |suffix|..];
      }
    }
  }

  /** The fold of a piece of a string is no longer than the fold of the whole. */
  lemma FoldOfPiece(f: char -> string, s: string, i: nat, j: nat)
    requires i <= j <= |s|
    ensures |Fold(f, s[i..j])| <= |Fold(f, s)|
  {
    assert s == s[..i] + (s[i..j] + s[j..]);
    FoldAppend(f, s[..i], s[i..j] + s[j..]);
    FoldAppend(f, s[i..j], s[j..]);
  }

  lemma PieceOfPiece(s: string, k: nat, m: nat, i: nat, j: nat)
    requires k <= m <= |s| && i <= j <= m - k
    ensures s[k..m][i..j] == s[k + i..k + j]
  {
    var t := s[k..m];
    assert forall x :: 0 <= x < j - i ==> t[i..j][x] == t[i + x] == s[k + i + x];
  }

  lemma NormPathIsPiece(s: string) returns (i: nat, j: nat)
    requires '\\' !in s
    ensures i <= j <= |s| && NormPath(s) == s[i..j]
  {
    hide Strip, Slashes;
    SlashesHasNoBackslash(s);
    var k, m := StripIsPiece(s, IsSpace);
    var a, b := StripIsPiece(s[k..m], IsSlash);
    PieceOfPiece(s, k, m, a, b);
    i, j := k + a, k + b;
  }

  /** Normalising only cuts the ends off, so the fold cannot grow. */
  lemma FoldOfNormPath(f: char -> string, s: string)
    requires '\\' !in s
    ensures |Folded(f, s)| <= |Fold(f, s)|
  {
    var i, j := NormPathIsPiece(s);
    FoldOfPiece(f, s, i, j);
  }

  lemma NormPathFixed(s: string)
    requires s != "" && '\\' !in s
    requires !IsSpace(s[0]) && s[0] != '/' && !IsSpace(s[|s| - 1]) && s[|s| - 1] != '/'
    ensures NormPath(s) == s
  {
    SlashesHasNoBackslash(s);
    StripKeeps(s, IsSpace);
    StripKeeps(s, IsSlash);
  }

  lemma NormPathShape(s: string)
    requires NormPath(s) == s && s != ""
    ensures '\\' !in s && s[0] != '/' && s[|s| - 1] != '/' && !IsSpace(s[0]) && !IsSpace(s[|s| - 1])
  {
    hide Strip, Slashes;
    var t := Slashes(s);
    SlashesHasNoBackslash(s);
    var i, j := StripIsPiece(t, IsSpace);
    var k, m := StripIsPiece(t[i..j], IsSlash);
    assert |s| == m - k <= j - i <= |t|;
    assert t[i..j] == t && Strip(t, IsSpace) == t;
    assert s == t;
  }

  // The pattern that shares a base with `x` but spells its wildcard differently.
  function Sibling(x: string): string {
    if EndsWith(x, "/**") then Base(x) + "/*" else Base(x) + "/**"
  }

  lemma SplitPattern(x: string) returns (wild: string)
    ensures x == Base(x) + wild && (wild == "" || wild == "/*" || wild == "/**")
    ensures Sibling(x) == Base(x) + if wild == "/**" then "/*" else "/**"
  {
    wild := if EndsWith(x, "/**") then "/**" else if EndsWith(x, "/*") then "/*" else "";
  }

  lemma BaseOfWild(b: string)
    ensures EndsWith(b + "/**", "/**") && Base(b + "/**") == b
    ensures EndsWith(b + "/*", "/*") && !EndsWith(b + "/*", "/**") && Base(b + "/*") == b
  {
    assert (b + "/*")[|b| + 1] == '*' && (b + "/*")[|b|] == '/';
  }

  lemma BaseShape(x: string)
    requires NormPath(x) == x && x != ""
    ensures var b := Base(x); b != "" && '\\' !in b && b[0] != '/' && !IsSpace(b[0])
  {
    hide NormPath, IsSpace;
    NormPathShape(x);
    var b := Base(x);
    assert x[0] != '/';
    assert b == x[..|b|];
  }

  lemma WildIsNormal(b: string, tail: string)
    requires b != "" && '\\' !in b && b[0] != '/' && !IsSpace(b[0])
    requires tail != "" && '\\' !in tail
    requires tail[|tail| - 1] != '/' && !IsSpace(tail[|tail| - 1])
    ensures NormPath(b + tail) == b + tail
  {
    NormPathFixed(b + tail);
  }

  lemma SiblingShape(x: string)
    requires NormPath(x) == x && x != ""
    ensures NormPath(Sibling(x)) == Sibling(x) && Base(Sibling(x)) == Base(x)
  {
    BaseShape(x);
    BaseOfWild(Base(x));
    WildIsNormal(Base(x), "/*");
    WildIsNormal(Base(x), "/**");
  }

  lemma SiblingTrimsAlike(x: string)
    ensures RStrip(Sibling(x), IsSlashOrStar) == RStrip(x, IsSlashOrStar)
  {
    var wild := SplitPattern(x);
    TrimsToBase(Base(x), wild);
    TrimsToBase(Base(x), if wild == "/**" then "/*" else "/**");
  }

  lemma TrimsToBase(b: string, wild: string)
    requires wild == "" || wild == "/*" || wild == "/**"
    ensures RStrip(b + wild, IsSlashOrStar) == RStrip(b, IsSlashOrStar)
  {
    RStripOfDropped(b, wild, IsSlashOrStar);
  }

  lemma StemIsNoLonger(f: Folding, x: string)
    requires NormPath(x) == x && x != ""
    ensures |Stem(f, x)| <= |Fold(f, Base(x))|
  {
    hide NormPath, Fold, IsSpace;
    NormPathShape(x);
    var wild := SplitPattern(x);
    var b := Base(x);
    RStripOfDropped(b, wild, IsSlashOrStar);
    var t := RStrip(b, IsSlashOrStar);
    assert t == b[0..|t|];
    FoldOfPiece(f, b, 0, |t|);
    assert forall c :: c in t ==> c in x;
    FoldOfNormPath(f, t);
  }

  lemma ShortStemMissesWild(stem: string, base: string, q: string)
    requires stem != base && |stem| <= |base|
    requires Base(q) == base
    ensures !MatchFolded(stem, q)
  {
  }

  lemma FoldOfChild(f: Folding, b: string)
    ensures Fold(f, b + "/z") == Fold(f, b) + "/" + f('z')
    ensures '/' !in f('z')
  {
    assert b + "/z" == b + ("/" + "z");
    FoldAppend(f, b, "/" + "z");
    FoldAppend(f, "/", "z");
    FoldOne(f, 'z');
    FoldOne(f, '/');
  }

  lemma ChildMatchesWild(p: string, base: string, seg: string, q: string)
    requires p == base + "/" + seg && '/' !in seg
    requires Base(q) == base && q != base
    ensures MatchFolded(p, q)
  {
    assert p[..|base| + 1] == base + "/";
    assert p[|base| + 1..] == seg;
  }

  lemma ChildMatches(f: Folding, b: string, y: string)
    requires NormPath(b + "/z") == b + "/z" && NormPath(y) == y && Base(y) == b && y != b
    ensures PathMatches(f, b + "/z", y)
  {
    FoldBase(f, y);
    FoldOfChild(f, b);
    FoldedWild(f, y);
    ChildMatchesWild(Folded(f, b + "/z"), Fold(f, b), f('z'), Fold(f, y));
  }

  lemma BaseMatches(f: Folding, b: string, y: string)
    requires NormPath(b) == b && NormPath(y) == y && y == b + "/**"
    ensures PathMatches(f, b, y)
  {
    BaseOfWild(b);
    FoldBase(f, y);
  }

  lemma SiblingsShareAPath(f: Folding, x: string)
    requires NormPath(x) == x && x != ""
    ensures exists path :: PathMatches(f, path, x) && PathMatches(f, path, Sibling(x))
  {
    var b, y := Base(x), Sibling(x);
    var wild := SplitPattern(x);
    SiblingShape(x);
    if wild == "" {
      BaseMatches(f, b, y);
      FoldBase(f, x);
      assert PathMatches(f, x, x);
    } else {
      BaseShape(x);
      WildIsNormal(b, "/z");
      ChildMatches(f, b, x);
      ChildMatches(f, b, y);
    }
  }

  lemma FoldedWild(f: Folding, x: string)
    requires x != Base(x)
    ensures Fold(f, x) != Base(Fold(f, x))
  {
    FoldBase(f, x);
  }

  /** A normalised pattern and its sibling always share a path; the claim test reports the pair exactly
      when the pattern is tidy. */
  lemma TidyIsExact(f: Folding, x: string)
    requires NormPath(x) == x && x != ""
    ensures exists path :: PathMatches(f, path, x) && PathMatches(f, path, Sibling(x))
    ensures Tidy(f, x) <==> ClaimsOverlap(f, x, Sibling(x))
  {
    var y := Sibling(x);
    hide NormPath, RStrip, Fold, MatchFolded;
    SiblingsShareAPath(f, x);
    SiblingShape(x);
    SiblingTrimsAlike(x);
    FoldBase(f, x);
    FoldBase(f, y);
    if Tidy(f, x) {
      var path :| PathMatches(f, path, x) && PathMatches(f, path, y);
      TidyOverlapIsReported(f, x, y, path);
    } else {
      StemIsNoLonger(f, x);
      ShortStemMissesWild(Stem(f, x), Fold(f, Base(x)), Fold(f, x));
      ShortStemMissesWild(Stem(f, x), Fold(f, Base(x)), Fold(f, y));
      assert Fold(f, x) != Fold(f, y) by { FoldsDiffer(f, x); }
    }
  }

  lemma FoldsDiffer(f: Folding, x: string)
    ensures Fold(f, x) != Fold(f, Sibling(x))
  {
    BaseOfWild(Base(x));
    FoldBase(f, x);
    FoldBase(f, Sibling(x));
  }

  lemma {:induction false} FoldIsNoShorter(f: Folding, s: string)
    ensures |Fold(f, s)| >= |s|
  {
    if s != "" { FoldIsNoShorter(f, s[1..]); }
  }

  lemma FoldOfProperPiece(f: Folding, s: string, i: nat, j: nat)
    requires i <= j <= |s| && j - i < |s|
    ensures |Fold(f, s[i..j])| < |Fold(f, s)|
  {
    assert s == s[..i] + (s[i..j] + s[j..]);
    FoldAppend(f, s[..i], s[i..j] + s[j..]);
    FoldAppend(f, s[i..j], s[j..]);
    FoldIsNoShorter(f, s[..i]);
    FoldIsNoShorter(f, s[j..]);
  }

  /** The base of the pattern ends in no slash, star or blank. */
  predicate HasPlainBase(x: string) {
    var b := Base(x);
    b != "" && !IsSlashOrStar(b[|b| - 1]) && !IsSpace(b[|b| - 1])
  }

  lemma StemOfPattern(f: Folding, x: string)
    requires NormPath(x) == x && x != ""
    ensures Stem(f, x) == Folded(f, RStrip(Base(x), IsSlashOrStar)) && Base(Folded(f, x)) == Fold(f, Base(x))
  {
    hide NormPath, RStrip;
    var wild := SplitPattern(x);
    TrimsToBase(Base(x), wild);
    FoldBase(f, x);
  }

  lemma PlainBaseTrims(b: string)
    requires b != "" && '\\' !in b && b[0] != '/' && !IsSpace(b[0])
    requires !IsSlashOrStar(b[|b| - 1]) && !IsSpace(b[|b| - 1])
    ensures RStrip(b, IsSlashOrStar) == b && NormPath(b) == b
  {
    hide NormPath;
    RStripIs(b, IsSlashOrStar, |b|);
    assert b[..|b|] == b;
    NormPathFixed(b);
  }

  /** Trimming and normalising a base that ends in a slash, a star or a blank cuts something off. */
  lemma OtherBaseTrims(b: string) returns (i: nat, j: nat)
    requires b != "" && '\\' !in b
    requires IsSlashOrStar(b[|b| - 1]) || IsSpace(b[|b| - 1])
    ensures i <= j <= |b| && j - i < |b| && NormPath(RStrip(b, IsSlashOrStar)) == b[i..j]
  {
    hide NormPath;
    var t := RStrip(b, IsSlashOrStar);
    assert t == b[..|t|] && forall c :: c in t ==> c in b;
    i, j := NormPathIsPiece(t);
    assert t[i..j] == b[i..j];
    if |t| == |b| {
      assert t == b;
      if NormPath(b) == b { NormPathShape(b); }
    }
  }

  /** What a card author can check: a normalised pattern is tidy exactly when its base ends in no slash,
      star or blank. */
  lemma TidyByBase(f: Folding, x: string)
    requires NormPath(x) == x && x != ""
    ensures Tidy(f, x) <==> HasPlainBase(x)
  {
    hide NormPath, RStrip, Fold, Base, IsSpace;
    var b := Base(x);
    BaseShape(x);
    StemOfPattern(f, x);
    if HasPlainBase(x) {
      PlainBaseTrims(b);
    } else {
      var i, j := OtherBaseTrims(b);
      FoldOfProperPiece(f, b, i, j);
    }
  }

  lemma StarPatternShape()
    ensures NormPath("a*/*") == "a*/*" && Base("a*/*") == "a*" && Sibling("a*/*") == "a*/**"
    ensures !HasPlainBase("a*/*")
  {
    assert NormPath("a*/*") == "a*/*" by { NormPathFixed("a*/*"); }
    assert "a*/*" == "a*" + "/*" && "a*/**" == "a*" + "/**";
    BaseOfWild("a*");
  }

  // "a*/*" and "a*/**" share a path and are not reported.
  lemma StarClaimIsMissed(f: Folding)
    ensures exists path :: PathMatches(f, path, "a*/*") && PathMatches(f, path, "a*/**")
    ensures !Tidy(f, "a*/*") && !ClaimsOverlap(f, "a*/*", "a*/**")
  {
    hide NormPath, RStrip, Fold, Base, Tidy, ClaimsOverlap, PathMatches, Sibling, HasPlainBase;
    StarPatternShape();
    TidyByBase(f, "a*/*");
    TidyIsExact(f, "a*/*");
  }
}
