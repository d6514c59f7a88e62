/** The order of the entries in a verification cache file (merge_verification_cache in infra/build_chunks.py). */
module CacheFile {
  import opened TextOrder
  import opened VerificationCache

  // ----- the order of tuples of texts -----

  /** `<` on tuples of the same length. */
  predicate TupleLess(a: seq<string>, b: seq<string>)
    requires |a| == |b|
  {
    a != [] && (Less(a[0], b[0]) || (a[0] == b[0] && TupleLess(a[1..], b[1..])))
  }

  lemma {:induction false} TupleLessTotal(a: seq<string>, b: seq<string>)
    requires |a| == |b|
    ensures a == b || TupleLess(a, b) || TupleLess(b, a)
  {
    if a != [] {
      LeqTotal(a[0], b[0]);
      TupleLessTotal(a[1..], b[1..]);
      assert a == [a[0]] + a[1..] && b == [b[0]] + b[1..];
    }
  }

  lemma {:induction false} TupleLessIrreflexive(a: seq<string>)
    ensures !TupleLess(a, a)
  {
    if a != [] { TupleLessIrreflexive(a[1..]); }
  }

  lemma {:induction false} TupleLessTransitive(a: seq<string>, b: seq<string>, c: seq<string>)
    requires |a| == |b| == |c| && TupleLess(a, b) && TupleLess(b, c)
    ensures TupleLess(a, c)
  {
    if a[0] == b[0] == c[0] {
      TupleLessTransitive(a[1..], b[1..], c[1..]);
    } else if a[0] != b[0] && b[0] != c[0] {
      LeqTransitive(a[0], b[0], c[0]);
      if a[0] == c[0] { LeqAntisymmetric(a[0], b[0]); }
    }
  }

  function SortKey(e: Entry): (t: seq<string>)
    ensures |t| == 6
  {
    [e.key.provenance, e.title, e.key.codeSha, e.key.commit, e.key.platform, e.key.toolchain]
  }

  predicate Precedes(e: Entry, f: Entry) { TupleLess(SortKey(e), SortKey(f)) }

  lemma PrecedesTotal(e: Entry, f: Entry)
    requires e.key != f.key
    ensures Precedes(e, f) || Precedes(f, e)
  {
    TupleLessTotal(SortKey(e), SortKey(f));
    assert SortKey(e)[0] == e.key.provenance && SortKey(f)[0] == f.key.provenance;
    assert SortKey(e)[2] == e.key.codeSha && SortKey(f)[2] == f.key.codeSha;
    assert SortKey(e)[3] == e.key.commit && SortKey(f)[3] == f.key.commit;
    assert SortKey(e)[4] == e.key.platform && SortKey(f)[4] == f.key.platform;
    assert SortKey(e)[5] == e.key.toolchain && SortKey(f)[5] == f.key.toolchain;
  }

  // ----- the file -----

  /** Strictly ascending: sorted, and no two entries in the same place. */
  predicate Ascending(file: seq<Entry>) {
    forall i, j :: 0 <= i < j < |file| ==> Precedes(file[i], file[j])
  }

  /** The entries of the file are exactly those of the cache. */
  ghost predicate Holds(file: seq<Entry>, cache: Cache) {
    forall e :: e in file <==> e.key in cache && cache[e.key] == e
  }

  /** One more entry at its place. */
  function Insert(e: Entry, file: seq<Entry>): (r: seq<Entry>)
    requires Ascending(file) && forall f :: f in file ==> f.key != e.key
    ensures Ascending(r) && forall f :: f in r <==> f == e || f in file
  {
    hide Precedes;
    if file == [] then [e]
    else if Precedes(e, file[0]) then
      FirstPrecedesAll(e, file);
      InFront(e, file);
      [e] + file
    else
      PrecedesTotal(e, file[0]);
      assert file == [file[0]] + file[1..];
      var rest := Insert(e, file[1..]);
      InFront(file[0], rest);
      [file[0]] + rest
  }

  lemma InFront(e: Entry, file: seq<Entry>)
    requires Ascending(file) && forall f :: f in file ==> Precedes(e, f)
    ensures Ascending([e] + file)
  {
    hide Precedes;
  }

  lemma FirstPrecedesAll(e: Entry, file: seq<Entry>)
    requires Ascending(file) && file != [] && Precedes(e, file[0])
    ensures forall f :: f in file ==> Precedes(e, f)
  {
    forall f | f in file ensures Precedes(e, f) {
      var i :| 0 <= i < |file| && file[i] == f;
      if i > 0 { TupleLessTransitive(SortKey(e), SortKey(file[0]), SortKey(f)); }
    }
  }

  /** merge_verification_cache: the dictionary of both lists, and sorted() over its values. */
  method MergeVerificationCache(existing: seq<Entry>, added: seq<Entry>) returns (file: seq<Entry>)
    ensures Ascending(file) && Holds(file, Merge(Merge(map[], existing), added))
  {
    var merged: Cache := map[];
    for i := 0 to |existing|
      invariant merged == Merge(map[], existing[..i])
    {
      assert existing[..i + 1][..i] == existing[..i];
      merged := merged[existing[i].key := existing[i]];
    }
    assert existing[..|existing|] == existing;
    for i := 0 to |added|
      invariant merged == Merge(Merge(map[], existing), added[..i])
    {
      assert added[..i + 1][..i] == added[..i];
      merged := merged[added[i].key := added[i]];
    }
    assert added[..|added|] == added;
    MergeIsKeyed(map[], existing);
    MergeIsKeyed(Merge(map[], existing), added);
    file := SortedValues(merged);
  }

  /** Every entry is under its own key. */
  predicate Keyed(cache: Cache) { forall key :: key in cache ==> cache[key].key == key }

  lemma {:induction false} MergeIsKeyed(cache: Cache, entries: seq<Entry>)
    requires Keyed(cache)
    ensures Keyed(Merge(cache, entries))
  {
    if entries != [] { MergeIsKeyed(cache, entries[..|entries| - 1]); }
  }

  method SortedValues(cache: Cache) returns (file: seq<Entry>)
    requires Keyed(cache)
    ensures Ascending(file) && Holds(file, cache)
  {
    file := [];
    var left := cache.Keys;
    while left != {}
      invariant left <= cache.Keys && Ascending(file)
      invariant forall e :: e in file <==> e.key in cache && e.key !in left && cache[e.key] == e
      decreases |left|
    {
      var key :| key in left;
      file := Insert(cache[key], file);
      left := left - {key};
    }
  }

  // ----- what the order is for -----

  /** There is one such file: the committed text does not depend on the order in which verdicts came. */
  lemma {:induction false} FileIsUnique(a: seq<Entry>, b: seq<Entry>)
    requires Ascending(a) && Ascending(b) && forall e :: e in a <==> e in b
    ensures a == b
  {
    assert forall i :: 0 <= i < |b| ==> b[i] in a;
    assert forall i :: 0 <= i < |a| ==> a[i] in b;
    if a != [] {
      HeadsAgree(a, b);
      assert a == [a[0]] + a[1..] && b == [b[0]] + b[1..];
      TailIsTheRest(a);
      TailIsTheRest(b);
      FileIsUnique(a[1..], b[1..]);
    }
  }

  lemma HeadsAgree(a: seq<Entry>, b: seq<Entry>)
    requires Ascending(a) && Ascending(b) && a != [] && b != [] && a[0] in b && b[0] in a
    ensures a[0] == b[0]
  {
    if a[0] != b[0] {
      var i :| 0 < i < |b| && b[i] == a[0];
      var j :| 0 < j < |a| && a[j] == b[0];
      TupleLessTransitive(SortKey(a[0]), SortKey(b[0]), SortKey(a[0]));
      TupleLessIrreflexive(SortKey(a[0]));
    }
  }

  lemma TailIsTheRest(a: seq<Entry>)
    requires Ascending(a) && a != []
    ensures forall e :: e in a[1..] <==> e in a && e != a[0]
  {
    assert a == [a[0]] + a[1..];
    if a[0] in a[1..] {
      var i :| 0 < i < |a| && a[i] == a[0];
      TupleLessIrreflexive(SortKey(a[0]));
    }
  }

  /** A file read back is the cache it holds. */
  lemma FileReadsBack(file: seq<Entry>, cache: Cache)
    requires Holds(file, cache) && Keyed(cache)
    ensures Merge(map[], file) == cache
  {
    MergeIsKeyed(map[], file);
    forall key | key in cache ensures key in Merge(map[], file) && Merge(map[], file)[key] == cache[key] {
      assert cache[key] in file;
      MergeKeepsOrReplaces(map[], file, key);
    }
    forall key | key in Merge(map[], file) ensures key in cache {
      MergeKeepsOrReplaces(map[], file, key);
    }
  }

  /** A run that merges its verdicts into a file and writes the result changes the file exactly when the
      verdicts change the cache. */
  lemma UnchangedExactly(file: seq<Entry>, cache: Cache, added: seq<Entry>, again: seq<Entry>)
    requires Keyed(cache) && Ascending(file) && Holds(file, cache)
    requires Ascending(again) && Holds(again, Merge(Merge(map[], file), added))
    ensures again == file <==> Merge(cache, added) == cache
  {
    hide Precedes, Ascending, Merge;
    FileReadsBack(file, cache);
    if Merge(cache, added) == cache { FileIsUnique(again, file); }
    if again == file {
      MergeIsKeyed(cache, added);
      SameFileSameCache(file, cache, Merge(cache, added));
    }
  }

  lemma SameFileSameCache(file: seq<Entry>, a: Cache, b: Cache)
    requires Keyed(a) && Keyed(b) && Holds(file, a) && Holds(file, b)
    ensures a == b
  {
    FileReadsBack(file, a);
    FileReadsBack(file, b);
  }
}
