/** The byte stream behind a corpus fingerprint: one record a file, in path order. */
module Corpus {
  import opened Common
  import opened Splitting
  import LittleEndian

  /** A relative path by its names. */
  type Rel = seq<Bytes>

  const SLASH: byte := 47

  /** `size` is the walk's; `content` is what reading the file gave. */
  datatype File = File(rel: Rel, size: nat, content: Bytes)

  predicate GoodPath(rel: Rel) {
    |rel| >= 1 && NoneHas(rel, SLASH)
  }

  function PathBytes(rel: Rel): Bytes
    requires GoodPath(rel)
  {
    Join(rel, SLASH)
  }

  /** The file was read whole, and its lengths fit the 64-bit fields. */
  predicate Whole(f: File) {
    && GoodPath(f.rel) && |PathBytes(f.rel)| <= U64_MAX
    && f.size == |f.content| <= U64_MAX
  }

  predicate AllGood(files: seq<File>) {
    forall i | 0 <= i < |files| :: GoodPath(files[i].rel)
  }

  predicate AllWhole(files: seq<File>) {
    forall i | 0 <= i < |files| :: Whole(files[i])
  }

  function Le64(n: nat): Bytes {
    LittleEndian.Encode(n, 8)
  }

  /** Path length, path, size, content. */
  function RecordOf(f: File): Bytes
    requires GoodPath(f.rel)
  {
    Le64(|PathBytes(f.rel)|) + PathBytes(f.rel) + Le64(f.size) + f.content
  }

  function Stream(files: seq<File>): Bytes
    requires AllGood(files)
  {
    if files == [] then [] else RecordOf(files[0]) + Stream(files[1..])
  }

  // ---------------------------------------------------------------- records decode uniquely

  lemma PathInjective(a: Rel, b: Rel)
    requires GoodPath(a) && GoodPath(b) && PathBytes(a) == PathBytes(b)
    ensures a == b
  {
    SplitJoin(a, SLASH);
    SplitJoin(b, SLASH);
  }

  lemma SameFront(a: Bytes, x: Bytes, b: Bytes, y: Bytes)
    requires |a| == |b| && a + x == b + y
    ensures a == b && x == y
  {
    assert (a + x)[..|a|] == a && (b + y)[..|b|] == b;
    assert (a + x)[|a|..] == x && (b + y)[|b|..] == y;
  }

  /** A length field followed by that many bytes is read back from the front of any stream. */
  lemma SameField(a: Bytes, x: Bytes, b: Bytes, y: Bytes)
    requires |a| <= U64_MAX && |b| <= U64_MAX && Le64(|a|) + (a + x) == Le64(|b|) + (b + y)
    ensures a == b && x == y
  {
    SameFront(Le64(|a|), a + x, Le64(|b|), b + y);
    LittleEndian.Widths();
    LittleEndian.Injective(|a|, |b|, 8);
    SameFront(a, x, b, y);
  }

  lemma RecordFields(f: File, x: Bytes)
    requires GoodPath(f.rel)
    ensures var p := PathBytes(f.rel);
            RecordOf(f) + x == Le64(|p|) + (p + (Le64(f.size) + (f.content + x)))
  {
  }

  lemma SameRecord(f: File, x: Bytes, g: File, y: Bytes)
    requires Whole(f) && Whole(g) && RecordOf(f) + x == RecordOf(g) + y
    ensures f == g && x == y
  {
    RecordFields(f, x);
    RecordFields(g, y);
    SameField(PathBytes(f.rel), Le64(f.size) + (f.content + x), PathBytes(g.rel), Le64(g.size) + (g.content + y));
    SameField(f.content, x, g.content, y);
    PathInjective(f.rel, g.rel);
  }

  lemma StreamNotEmpty(files: seq<File>)
    requires AllGood(files)
    ensures files != [] <==> Stream(files) != []
  {
    if files != [] {
      assert |RecordOf(files[0])| >= 16;
    }
  }

  /** Equal streams of whole files are streams of the same files in the same order. */
  lemma {:induction false} StreamInjective(a: seq<File>, b: seq<File>)
    requires AllWhole(a) && AllWhole(b) && Stream(a) == Stream(b)
    ensures a == b
    decreases |a|
  {
    StreamNotEmpty(a);
    StreamNotEmpty(b);
    if a != [] {
      SameRecord(a[0], Stream(a[1..]), b[0], Stream(b[1..]));
      StreamInjective(a[1..], b[1..]);
      assert a == [a[0]] + a[1..] && b == [b[0]] + b[1..];
    }
  }

  lemma StreamOfOne(f: File)
    requires GoodPath(f.rel)
    ensures Stream([f]) == RecordOf(f)
  {
    assert [f][1..] == [];
    assert RecordOf(f) + [] == RecordOf(f);
  }

  /** When a file's content is not as long as its size says, two different trees can share a stream. */
  lemma SizesMatter(f: Rel, g: File)
    requires GoodPath(f) && GoodPath(g.rel)
    ensures Stream([File(f, 0, []), g]) == Stream([File(f, 0, RecordOf(g))])
  {
    assert [File(f, 0, []), g][1..] == [g];
    StreamOfOne(g);
    StreamOfOne(File(f, 0, RecordOf(g)));
  }

  // ---------------------------------------------------------------- path order

  /** Names compare byte by byte. */
  function BytesLeq(a: Bytes, b: Bytes): bool {
    a == [] || (b != [] && (a[0] < b[0] || (a[0] == b[0] && BytesLeq(a[1..], b[1..]))))
  }

  /** Paths compare name by name. */
  function PathLeq(a: Rel, b: Rel): bool {
    a == [] || (b != [] && if a[0] == b[0] then PathLeq(a[1..], b[1..]) else BytesLeq(a[0], b[0]))
  }

  lemma {:induction false} BytesOrder(a: Bytes, b: Bytes, c: Bytes)
    ensures BytesLeq(a, b) || BytesLeq(b, a)
    ensures BytesLeq(a, b) && BytesLeq(b, a) ==> a == b
    ensures BytesLeq(a, b) && BytesLeq(b, c) ==> BytesLeq(a, c)
    decreases |a|
  {
    if a != [] && b != [] {
      BytesOrder(a[1..], b[1..], if c == [] then [] else c[1..]);
      assert a[0] == b[0] && a[1..] == b[1..] ==> a == b by {
        assert a == [a[0]] + a[1..] && b == [b[0]] + b[1..];
      }
    }
  }

  lemma {:induction false} PathOrder(a: Rel, b: Rel, c: Rel)
    ensures PathLeq(a, b) || PathLeq(b, a)
    ensures PathLeq(a, b) && PathLeq(b, a) ==> a == b
    ensures PathLeq(a, b) && PathLeq(b, c) ==> PathLeq(a, c)
    decreases |a|
  {
    if a != [] && b != [] {
      PathOrder(a[1..], b[1..], if c == [] then [] else c[1..]);
      BytesOrder(a[0], b[0], if c == [] then [] else c[0]);
      BytesOrder(b[0], a[0], a[0]);
      if c != [] {
        BytesOrder(b[0], c[0], a[0]);
        BytesOrder(c[0], b[0], a[0]);
      }
      assert a[0] == b[0] && a[1..] == b[1..] ==> a == b by {
        assert a == [a[0]] + a[1..] && b == [b[0]] + b[1..];
      }
    }
  }

  predicate DistinctPaths(files: seq<File>) {
    forall i, j | 0 <= i < j < |files| :: files[i].rel != files[j].rel
  }

  predicate Sorted(files: seq<File>) {
    forall i, j | 0 <= i < j < |files| :: PathLeq(files[i].rel, files[j].rel)
  }

  lemma HeadIsLeast(sorted: seq<File>, f: File)
    requires Sorted(sorted) && f in sorted
    ensures PathLeq(sorted[0].rel, f.rel)
  {
    PathOrder(f.rel, f.rel, f.rel);
  }

  function Insert(f: File, sorted: seq<File>): seq<File> {
    if sorted == [] then [f]
    else if PathLeq(f.rel, sorted[0].rel) then [f] + sorted
    else [sorted[0]] + Insert(f, sorted[1..])
  }

  /** The order `sort_by` leaves, which for distinct paths is the only sorted one. */
  function Sort(files: seq<File>): seq<File> {
    if files == [] then [] else Insert(files[0], Sort(files[1..]))
  }

  lemma {:induction false} InsertAdds(f: File, sorted: seq<File>)
    ensures multiset(Insert(f, sorted)) == multiset(sorted) + multiset{f}
    ensures forall g | g in Insert(f, sorted) :: g in sorted || g == f
    decreases |sorted|
  {
    if sorted != [] {
      assert sorted == [sorted[0]] + sorted[1..];
      InsertAdds(f, sorted[1..]);
    }
  }

  lemma {:induction false} InsertSorts(f: File, sorted: seq<File>)
    requires Sorted(sorted)
    ensures Sorted(Insert(f, sorted))
    decreases |sorted|
  {
    if sorted != [] {
      var head, rest := sorted[0], sorted[1..];
      PathOrder(f.rel, head.rel, head.rel);
      if PathLeq(f.rel, head.rel) {
        forall i | 0 <= i < |sorted| ensures PathLeq(f.rel, sorted[i].rel) {
          HeadIsLeast(sorted, sorted[i]);
          PathOrder(f.rel, head.rel, sorted[i].rel);
        }
      } else {
        InsertSorts(f, rest);
        InsertAdds(f, rest);
        var after := Insert(f, rest);
        forall i | 0 <= i < |after| ensures PathLeq(head.rel, after[i].rel) {
          assert after[i] in after;
        }
      }
    }
  }

  lemma {:induction false} SortSorts(files: seq<File>)
    ensures Sorted(Sort(files)) && multiset(Sort(files)) == multiset(files)
    decreases |files|
  {
    if files != [] {
      SortSorts(files[1..]);
      InsertSorts(files[0], Sort(files[1..]));
      InsertAdds(files[0], Sort(files[1..]));
      assert files == [files[0]] + files[1..];
    }
  }

  lemma InMultiset(a: seq<File>, b: seq<File>, f: File)
    requires multiset(a) == multiset(b) && f in a
    ensures f in b
  {
    assert f in multiset(b);
  }

  /** Two sorted lists of the same files, with distinct paths, are the same list. */
  lemma {:induction false} SortedUnique(a: seq<File>, b: seq<File>)
    requires Sorted(a) && Sorted(b) && DistinctPaths(a) && multiset(a) == multiset(b)
    ensures a == b
    decreases |a|
  {
    assert |a| == |multiset(a)| == |multiset(b)| == |b|;
    if a != [] {
      SameHead(a, b);
      assert a == [a[0]] + a[1..] && b == [b[0]] + b[1..];
      assert multiset(a[1..]) == multiset(a) - multiset{a[0]};
      assert multiset(b[1..]) == multiset(b) - multiset{b[0]};
      SortedUnique(a[1..], b[1..]);
    }
  }

  lemma SameHead(a: seq<File>, b: seq<File>)
    requires Sorted(a) && Sorted(b) && DistinctPaths(a) && multiset(a) == multiset(b) && a != [] && b != []
    ensures a[0] == b[0]
  {
    InMultiset(a, b, a[0]);
    InMultiset(b, a, b[0]);
    HeadIsLeast(b, a[0]);
    HeadIsLeast(a, b[0]);
    PathOrder(a[0].rel, b[0].rel, a[0].rel);
    var j :| 0 <= j < |a| && a[j] == b[0];
    assert j == 0;
  }

  /** The stream hashed for a walk. */
  function CorpusStream(walk: seq<File>): Bytes
    requires AllGood(walk)
  {
    SortSorts(walk);
    SortKeepsGood(walk);
    Stream(Sort(walk))
  }

  lemma SortKeepsGood(walk: seq<File>)
    ensures AllGood(walk) ==> AllGood(Sort(walk))
    ensures AllWhole(walk) ==> AllWhole(Sort(walk))
  {
    SortSorts(walk);
    forall i | 0 <= i < |Sort(walk)| ensures Sort(walk)[i] in walk {
      InMultiset(Sort(walk), walk, Sort(walk)[i]);
    }
  }

  /**
   Two walks that read every file whole hash the same stream exactly when they hold the same files,
   in whatever order.
   */
  lemma FingerprintIsExact(a: seq<File>, b: seq<File>)
    requires AllWhole(a) && AllWhole(b) && DistinctPaths(a) && DistinctPaths(b)
    ensures CorpusStream(a) == CorpusStream(b) <==> multiset(a) == multiset(b)
  {
    SortSorts(a);
    SortSorts(b);
    SortKeepsGood(a);
    SortKeepsGood(b);
    if CorpusStream(a) == CorpusStream(b) {
      StreamInjective(Sort(a), Sort(b));
    }
    if multiset(a) == multiset(b) {
      DistinctKept(a, Sort(a));
      SortedUnique(Sort(a), Sort(b));
    }
  }

  lemma DistinctKept(a: seq<File>, b: seq<File>)
    requires DistinctPaths(a) && multiset(a) == multiset(b)
    ensures DistinctPaths(b)
  {
    forall i, j | 0 <= i < j < |b| ensures b[i].rel != b[j].rel {
      InMultiset(b, a, b[i]);
      InMultiset(b, a, b[j]);
      if b[i] == b[j] {
        assert b == b[..i] + [b[i]] + b[i + 1..j] + [b[j]] + b[j + 1..];
        assert multiset(b)[b[i]] >= 2;
        OnceInDistinct(a, b[i]);
        assert false;
      }
    }
  }

  lemma {:induction false} OnceInDistinct(a: seq<File>, f: File)
    requires DistinctPaths(a)
    ensures multiset(a)[f] <= 1
    decreases |a|
  {
    if a != [] {
      OnceInDistinct(a[1..], f);
      assert a == [a[0]] + a[1..];
      assert f == a[0] ==> f !in a[1..];
    }
  }

  // ---------------------------------------------------------------- the loops that feed the hash

  /** One file: its header, then its content in reads of whatever size the system returns. */
  method FeedFile(f: File, fed0: Bytes, bytes0: nat, read: nat -> nat) returns (fed: Bytes, bytes: nat)
    requires GoodPath(f.rel) && bytes0 <= U64_MAX
    requires forall at | 0 <= at < |f.content| :: 1 <= read(at) <= |f.content| - at
    ensures fed == fed0 + RecordOf(f) && bytes == SaturatingAdd(bytes0, |f.content|)
  {
    var path := PathBytes(f.rel);
    fed := fed0 + Le64(|path|);
    fed := fed + path;
    fed := fed + Le64(f.size);
    ghost var head := fed;
    bytes := bytes0;
    var at := 0;
    while at < |f.content|
      invariant 0 <= at <= |f.content| && fed == head + f.content[..at] && bytes == SaturatingAdd(bytes0, at)
    {
      var count := read(at);
      assert f.content[..at + count] == f.content[..at] + f.content[at..at + count];
      fed := fed + f.content[at..at + count];
      bytes := SaturatingAdd(bytes, count);
      at := at + count;
    }
    assert f.content[..at] == f.content;
  }

  function ContentBytes(files: seq<File>, n: nat): nat
    requires n <= |files|
  {
    if n == 0 then 0 else ContentBytes(files, n - 1) + |files[n - 1].content|
  }

  /** `corpus`: everything that is hashed, in order, and the byte total. */
  method Feed(walk: seq<File>, read: (File, nat) -> nat) returns (fed: Bytes, bytes: nat)
    requires AllGood(walk)
    requires forall f, at: nat | f in walk && at < |f.content| :: 1 <= read(f, at) <= |f.content| - at
    ensures fed == CorpusStream(walk) && bytes == Min(ContentBytes(Sort(walk), |Sort(walk)|), U64_MAX)
  {
    var files := Sort(walk);
    SortKeepsGood(walk);
    fed, bytes := [], 0;
    assert files[0..] == files;
    for i := 0 to |files|
      invariant fed + Stream(files[i..]) == Stream(files) && bytes == Min(ContentBytes(files, i), U64_MAX)
    {
      var f := files[i];
      ghost var before, rest := fed, Stream(files[i + 1..]);
      assert files[i..][1..] == files[i + 1..];
      SortSorts(walk);
      InMultiset(files, walk, f);
      fed, bytes := FeedFile(f, fed, bytes, (at: nat) => read(f, at));
      FedAssoc(before, RecordOf(f), rest);
    }
    assert files[|files|..] == [];
  }

  lemma FedAssoc(a: Bytes, b: Bytes, c: Bytes)
    ensures a + (b + c) == (a + b) + c
  {
  }
}
