/** `pinecone_client.get_document_stats`: the sampled matches are grouped
    into one entry per document source, in the order sources are first seen,
    each counting its chunks and keeping the upload time and subject of its
    first chunk; the entries are then sorted by upload time, latest first. */
module Registry {
  import opened Wrappers
  import opened Text
  import opened Seqs
  import opened Store

  datatype DocInfo = DocInfo(name: string, chunks: nat, uploadTime: string, subject: string)

  function UploadTimeOf(md: Metadata): string {
    Get(md, "upload_time", "Unknown")
  }

  function SubjectOf(md: Metadata): string {
    Get(md, "subject", "General")
  }

  /** The names of the entries, in order. */
  function Names(docs: seq<DocInfo>): (ns: seq<string>)
    ensures |ns| == |docs|
    ensures forall k :: 0 <= k < |docs| ==> ns[k] == docs[k].name
  {
    if |docs| == 0 then [] else Names(docs[..|docs| - 1]) + [docs[|docs| - 1].name]
  }

  /** One step of the grouping loop: the first chunk of a source opens an
      entry with a count of one; later chunks only bump that entry's count. */
  function AddChunk(docs: seq<DocInfo>, md: Metadata): seq<DocInfo> {
    var src := SourceOf(md);
    if src in Names(docs) then Bump(docs, FirstIndex(Names(docs), src)) else docs + [Opened(md)]
  }

  /** The entry a source's first chunk opens. */
  function Opened(md: Metadata): DocInfo {
    DocInfo(SourceOf(md), 1, UploadTimeOf(md), SubjectOf(md))
  }

  /** `documents[source]['chunks'] += 1` */
  function Bump(docs: seq<DocInfo>, i: nat): seq<DocInfo>
    requires i < |docs|
  {
    docs[i := docs[i].(chunks := docs[i].chunks + 1)]
  }

  /** The values of the `documents` dict after the loop, in insertion order. */
  function Group(ds: seq<Metadata>): seq<DocInfo> {
    if |ds| == 0 then [] else AddChunk(Group(ds[..|ds| - 1]), ds[|ds| - 1])
  }

  lemma NamesAppend(docs: seq<DocInfo>, d: DocInfo)
    ensures Names(docs + [d]) == Names(docs) + [d.name]
  {
    assert (docs + [d])[..|docs|] == docs;
  }

  lemma NamesUpdate(docs: seq<DocInfo>, i: nat, d: DocInfo)
    requires i < |docs| && d.name == docs[i].name
    ensures Names(docs[i := d]) == Names(docs)
  {
  }

  lemma AddChunkNames(docs: seq<DocInfo>, srcs: seq<string>, md: Metadata)
    requires Names(docs) == Dedup(srcs)
    ensures Names(AddChunk(docs, md)) == Dedup(srcs + [SourceOf(md)])
  {
    DedupAppend(srcs, SourceOf(md));
    if SourceOf(md) in Names(docs) {
      var i := FirstIndex(Names(docs), SourceOf(md));
      NamesUpdate(docs, i, docs[i].(chunks := docs[i].chunks + 1));
    } else {
      NamesAppend(docs, Opened(md));
    }
  }

  /** The entries are the distinct sources in order of first appearance,
      so no two entries share a name. */
  lemma {:induction false} GroupNames(ds: seq<Metadata>)
    ensures Names(Group(ds)) == Dedup(Sources(ds))
  {
    if |ds| > 0 {
      var init, md := ds[..|ds| - 1], ds[|ds| - 1];
      assert ds == init + [md];
      GroupNames(init);
      SourcesAppend(init, md);
      AddChunkNames(Group(init), Sources(init), md);
    }
  }

  /** Each entry counts the chunks of `ds` whose (defaulted) source is its name. */
  predicate CountsMatch(docs: seq<DocInfo>, ds: seq<Metadata>) {
    forall k :: 0 <= k < |docs| ==> docs[k].chunks == Count(Sources(ds), docs[k].name)
  }

  /** An entry carries the upload time and subject recorded in `md`. */
  predicate FieldsFrom(d: DocInfo, md: Metadata) {
    d.uploadTime == UploadTimeOf(md) && d.subject == SubjectOf(md)
  }

  /** Each entry's upload time and subject are those of the first chunk of
      `ds` with its source. */
  predicate FirstSeenFields(docs: seq<DocInfo>, ds: seq<Metadata>) {
    forall k :: 0 <= k < |docs| ==>
      docs[k].name in Sources(ds) && FieldsFrom(docs[k], ds[FirstIndex(Sources(ds), docs[k].name)])
  }

  lemma AddChunkCounts(docs: seq<DocInfo>, ds: seq<Metadata>, md: Metadata)
    requires Names(docs) == Dedup(Sources(ds)) && CountsMatch(docs, ds)
    ensures CountsMatch(AddChunk(docs, md), ds + [md])
  {
    SourcesAppend(ds, md);
    var srcs, s := Sources(ds), SourceOf(md);
    var r := AddChunk(docs, md);
    forall k | 0 <= k < |r|
      ensures r[k].chunks == Count(srcs + [s], r[k].name)
    {
      CountAppend(srcs, s, r[k].name);
      if k < |docs| {
        assert Names(docs)[k] == docs[k].name;
      }
      if s !in Names(docs) {
        assert s !in srcs;
      }
    }
  }

  /** An entry already present keeps the fields of its first chunk when a chunk is appended. */
  lemma FirstSeenKept(d: DocInfo, ds: seq<Metadata>, md: Metadata)
    requires d.name in Sources(ds) && FieldsFrom(d, ds[FirstIndex(Sources(ds), d.name)])
    ensures d.name in Sources(ds + [md])
    ensures FieldsFrom(d, (ds + [md])[FirstIndex(Sources(ds + [md]), d.name)])
  {
    SourcesAppend(ds, md);
    FirstIndexAppend(Sources(ds), SourceOf(md), d.name);
  }

  /** A new entry takes the fields of the chunk that opened it. */
  lemma FirstSeenNew(ds: seq<Metadata>, md: Metadata)
    requires SourceOf(md) !in Sources(ds)
    ensures SourceOf(md) in Sources(ds + [md])
    ensures FirstIndex(Sources(ds + [md]), SourceOf(md)) == |ds|
  {
    SourcesAppend(ds, md);
  }

  lemma BumpFirstSeen(docs: seq<DocInfo>, i: nat, ds: seq<Metadata>, md: Metadata)
    requires i < |docs| && FirstSeenFields(docs, ds)
    ensures FirstSeenFields(Bump(docs, i), ds + [md])
  {
    var r := Bump(docs, i);
    forall k | 0 <= k < |r|
      ensures r[k].name in Sources(ds + [md])
      ensures FieldsFrom(r[k], (ds + [md])[FirstIndex(Sources(ds + [md]), r[k].name)])
    {
      FirstSeenKept(docs[k], ds, md);
    }
  }

  lemma OpenedFirstSeen(docs: seq<DocInfo>, ds: seq<Metadata>, md: Metadata)
    requires SourceOf(md) !in Sources(ds) && FirstSeenFields(docs, ds)
    ensures FirstSeenFields(docs + [Opened(md)], ds + [md])
  {
    var r := docs + [Opened(md)];
    FirstSeenNew(ds, md);
    forall k | 0 <= k < |docs|
      ensures r[k].name in Sources(ds + [md])
      ensures FieldsFrom(r[k], (ds + [md])[FirstIndex(Sources(ds + [md]), r[k].name)])
    {
      FirstSeenKept(docs[k], ds, md);
    }
    assert (ds + [md])[|ds|] == md;
  }

  lemma AddChunkFirstSeen(docs: seq<DocInfo>, ds: seq<Metadata>, md: Metadata)
    requires SourceOf(md) in Names(docs) <==> SourceOf(md) in Sources(ds)
    requires FirstSeenFields(docs, ds)
    ensures FirstSeenFields(AddChunk(docs, md), ds + [md])
  {
    if SourceOf(md) in Names(docs) {
      BumpFirstSeen(docs, FirstIndex(Names(docs), SourceOf(md)), ds, md);
    } else {
      OpenedFirstSeen(docs, ds, md);
    }
  }

  /** Each entry counts exactly the chunks whose (defaulted) source is its name. */
  lemma {:induction false} GroupCounts(ds: seq<Metadata>)
    ensures CountsMatch(Group(ds), ds)
  {
    if |ds| > 0 {
      var init, md := ds[..|ds| - 1], ds[|ds| - 1];
      assert ds == init + [md];
      GroupCounts(init);
      GroupNames(init);
      AddChunkCounts(Group(init), init, md);
    }
  }

  /** Each entry's upload time and subject come from the first chunk seen
      for its source; later chunks of that source change only the count. */
  lemma {:induction false} GroupFirstSeen(ds: seq<Metadata>)
    ensures FirstSeenFields(Group(ds), ds)
  {
    if |ds| > 0 {
      var init, md := ds[..|ds| - 1], ds[|ds| - 1];
      assert ds == init + [md];
      GroupFirstSeen(init);
      GroupNames(init);
      assert SourceOf(md) in Names(Group(init)) <==> SourceOf(md) in Sources(init);
      AddChunkFirstSeen(Group(init), init, md);
    }
  }

  /** Chunks that all come from one source group into a single entry. */
  lemma {:induction false} GroupOneSource(ds: seq<Metadata>, s: string)
    requires |ds| > 0 && forall k :: 0 <= k < |ds| ==> SourceOf(ds[k]) == s
    ensures Group(ds) == [DocInfo(s, |ds|, UploadTimeOf(ds[0]), SubjectOf(ds[0]))]
  {
    var init := ds[..|ds| - 1];
    if |init| > 0 {
      GroupOneSource(init, s);
      assert Names(Group(init)) == [s];
    }
  }

  function TotalChunks(docs: seq<DocInfo>): nat {
    if |docs| == 0 then 0 else TotalChunks(docs[..|docs| - 1]) + docs[|docs| - 1].chunks
  }

  lemma {:induction false} TotalChunksUpdate(docs: seq<DocInfo>, i: nat, d: DocInfo)
    requires i < |docs|
    ensures TotalChunks(docs[i := d]) + docs[i].chunks == TotalChunks(docs) + d.chunks
  {
    if i < |docs| - 1 {
      assert docs[i := d][..|docs| - 1] == docs[..|docs| - 1][i := d];
      TotalChunksUpdate(docs[..|docs| - 1], i, d);
    } else {
      assert docs[i := d][..|docs| - 1] == docs[..|docs| - 1];
    }
  }

  /** The counts add up to the number of matches with metadata. */
  lemma {:induction false} GroupTotal(ds: seq<Metadata>)
    ensures TotalChunks(Group(ds)) == |ds|
  {
    if |ds| > 0 {
      var init, md := ds[..|ds| - 1], ds[|ds| - 1];
      GroupTotal(init);
      var docs := Group(init);
      if SourceOf(md) in Names(docs) {
        var i := FirstIndex(Names(docs), SourceOf(md));
        TotalChunksUpdate(docs, i, docs[i].(chunks := docs[i].chunks + 1));
      } else {
        assert (docs + [Opened(md)])[..|docs|] == docs;
      }
    }
  }

  /** Upload times in non-increasing string order. */
  predicate SortedDesc(docs: seq<DocInfo>) {
    forall i, j :: 0 <= i < j < |docs| ==> !LexLess(docs[i].uploadTime, docs[j].uploadTime)
  }

  /** Puts `x` before the first entry whose upload time is not later than its own. */
  function Insert(x: DocInfo, s: seq<DocInfo>): (r: seq<DocInfo>)
    ensures multiset(r) == multiset(s) + multiset{x}
  {
    if |s| == 0 || !LexLess(x.uploadTime, s[0].uploadTime) then [x] + s
    else
      assert s == [s[0]] + s[1..];
      [s[0]] + Insert(x, s[1..])
  }

  /** `sorted(docs, key=upload_time, reverse=True)`: a permutation of `docs`. */
  function SortDesc(docs: seq<DocInfo>): (r: seq<DocInfo>)
    ensures multiset(r) == multiset(docs)
  {
    if |docs| == 0 then []
    else
      assert docs == [docs[0]] + docs[1..];
      Insert(docs[0], SortDesc(docs[1..]))
  }

  lemma NotBeforeTransitive(a: string, b: string, c: string)
    requires !LexLess(a, b) && !LexLess(b, c)
    ensures !LexLess(a, c)
  {
    if a == c {
      LexLessIrreflexive(a);
    } else {
      if a != b {
        LexLessTotal(a, b);
      }
      if b != c {
        LexLessTotal(b, c);
      }
      if a != b && b != c {
        LexLessTransitive(c, b, a);
      }
      LexLessAsymmetric(c, a);
    }
  }

  lemma {:induction false} InsertSorted(x: DocInfo, s: seq<DocInfo>)
    requires SortedDesc(s)
    ensures SortedDesc(Insert(x, s))
  {
    if |s| > 0 && LexLess(x.uploadTime, s[0].uploadTime) {
      var rest := Insert(x, s[1..]);
      InsertSorted(x, s[1..]);
      forall j | 0 <= j < |rest|
        ensures !LexLess(s[0].uploadTime, rest[j].uploadTime)
      {
        assert rest[j] in multiset(rest);
        if rest[j] == x {
          LexLessAsymmetric(x.uploadTime, s[0].uploadTime);
        } else {
          assert rest[j] in s[1..];
        }
      }
    } else if |s| > 0 {
      forall j | 0 <= j < |s|
        ensures !LexLess(x.uploadTime, s[j].uploadTime)
      {
        if j > 0 {
          NotBeforeTransitive(x.uploadTime, s[0].uploadTime, s[j].uploadTime);
        }
      }
    }
  }

  /** The sort orders entries from the latest upload time to the earliest. */
  lemma {:induction false} SortDescSorted(docs: seq<DocInfo>)
    ensures SortedDesc(SortDesc(docs))
  {
    if |docs| > 0 {
      SortDescSorted(docs[1..]);
      InsertSorted(docs[0], SortDesc(docs[1..]));
    }
  }

  datatype DocumentStats = DocumentStats(totalVectors: int, documents: seq<DocInfo>)

  /** `get_document_stats()`, given the outcome of the index-stats call
      (`total_vector_count`, if reported) and of the sampling query. */
  function GetDocumentStats(stats: Call<Option<int>>, sample: Call<Option<seq<Match>>>): (r: DocumentStats)
    ensures stats.Raised? ==> r == DocumentStats(0, [])
    ensures stats.Returned? ==> r.totalVectors == stats.value.GetOr(0)
    ensures sample.Raised? ==> r.documents == []
    ensures stats.Returned? && sample.Returned? ==>
      && multiset(r.documents) == multiset(Group(Described(sample.value.GetOr([]))))
      && SortedDesc(r.documents)
  {
    match stats
    case Raised(_) => DocumentStats(0, [])
    case Returned(total) =>
      match sample
      case Raised(_) => DocumentStats(total.GetOr(0), [])
      case Returned(reply) =>
        var groups := Group(Described(reply.GetOr([])));
        SortDescSorted(groups);
        DocumentStats(total.GetOr(0), SortDesc(groups))
  }

  /** No two entries share a name. */
  predicate DistinctNames(docs: seq<DocInfo>) {
    forall i, j :: 0 <= i < j < |docs| ==> docs[i].name != docs[j].name
  }

  lemma TotalChunksPrepend(d: DocInfo, s: seq<DocInfo>)
    ensures TotalChunks([d] + s) == d.chunks + TotalChunks(s)
  {
    if |s| > 0 {
      assert ([d] + s)[..|s|] == [d] + s[..|s| - 1];
      TotalChunksPrepend(d, s[..|s| - 1]);
    }
  }

  lemma {:induction false} InsertTotal(x: DocInfo, s: seq<DocInfo>)
    ensures TotalChunks(Insert(x, s)) == x.chunks + TotalChunks(s)
  {
    if |s| == 0 || !LexLess(x.uploadTime, s[0].uploadTime) {
      TotalChunksPrepend(x, s);
    } else {
      InsertTotal(x, s[1..]);
      TotalChunksPrepend(s[0], Insert(x, s[1..]));
      TotalChunksPrepend(s[0], s[1..]);
      assert [s[0]] + s[1..] == s;
    }
  }

  /** No entry of `s` is named `n`. */
  predicate Unnamed(s: seq<DocInfo>, n: string) {
    forall k :: 0 <= k < |s| ==> s[k].name != n
  }

  lemma {:induction false} InsertDistinct(x: DocInfo, s: seq<DocInfo>)
    requires DistinctNames(s) && Unnamed(s, x.name)
    ensures DistinctNames(Insert(x, s))
  {
    if |s| > 0 && LexLess(x.uploadTime, s[0].uploadTime) {
      var rest := Insert(x, s[1..]);
      InsertDistinct(x, s[1..]);
      forall j | 0 <= j < |rest|
        ensures rest[j].name != s[0].name
      {
        assert rest[j] in multiset(rest);
        if rest[j] != x {
          var m :| 0 <= m < |s[1..]| && s[1..][m] == rest[j];
          assert s[m + 1] == rest[j];
        }
      }
    }
  }

  /** Sorting only reorders: the same entries, as many of them. */
  lemma SortMembers(docs: seq<DocInfo>)
    ensures |SortDesc(docs)| == |docs|
    ensures forall d :: d in SortDesc(docs) <==> d in docs
  {
    var r := SortDesc(docs);
    assert |r| == |multiset(r)| == |multiset(docs)| == |docs|;
    forall d
      ensures d in r <==> d in docs
    {
      assert d in r <==> d in multiset(r);
    }
  }

  lemma {:induction false} SortTotal(docs: seq<DocInfo>)
    ensures TotalChunks(SortDesc(docs)) == TotalChunks(docs)
  {
    if |docs| > 0 {
      SortTotal(docs[1..]);
      InsertTotal(docs[0], SortDesc(docs[1..]));
      TotalChunksPrepend(docs[0], docs[1..]);
      assert [docs[0]] + docs[1..] == docs;
    }
  }

  lemma {:induction false} SortDistinct(docs: seq<DocInfo>)
    requires DistinctNames(docs)
    ensures DistinctNames(SortDesc(docs))
  {
    if |docs| > 0 {
      var rest := SortDesc(docs[1..]);
      SortDistinct(docs[1..]);
      SortMembers(docs[1..]);
      forall k | 0 <= k < |rest|
        ensures rest[k].name != docs[0].name
      {
        assert rest[k] in rest;
        var m :| 0 <= m < |docs| - 1 && docs[1..][m] == rest[k];
        assert docs[m + 1] == rest[k];
      }
      InsertDistinct(docs[0], rest);
    }
  }

  /** A name is listed exactly when some entry carries it. */
  lemma NamesMembers(docs: seq<DocInfo>)
    ensures forall s :: s in Names(docs) <==> exists d :: d in docs && d.name == s
  {
    forall s
      ensures s in Names(docs) <==> exists d :: d in docs && d.name == s
    {
      if s in Names(docs) {
        var k :| 0 <= k < |docs| && Names(docs)[k] == s;
        assert docs[k] in docs;
      }
      if d :| d in docs && d.name == s {
        var k :| 0 <= k < |docs| && docs[k] == d;
        assert Names(docs)[k] == s;
      }
    }
  }

  /** The entries of the grouping have distinct names, and a name is there
      exactly when it is the source of some chunk. */
  lemma GroupEntries(ds: seq<Metadata>)
    ensures DistinctNames(Group(ds))
    ensures forall s :: s in Sources(ds) <==> exists d :: d in Group(ds) && d.name == s
  {
    var g := Group(ds);
    GroupNames(ds);
    forall i, j | 0 <= i < j < |g|
      ensures g[i].name != g[j].name
    {
      assert Names(g)[i] == g[i].name && Names(g)[j] == g[j].name;
    }
    NamesMembers(g);
    DedupSameElements(Sources(ds));
  }

  /** The per-entry facts of the grouping, stated for each member. */
  lemma GroupMembers(ds: seq<Metadata>)
    ensures forall d :: d in Group(ds) ==>
      d.name in Sources(ds) && d.chunks == Count(Sources(ds), d.name)
      && FieldsFrom(d, ds[FirstIndex(Sources(ds), d.name)])
  {
    GroupCounts(ds);
    GroupFirstSeen(ds);
  }

  /** What `get_document_stats` reports once both store calls return: one
      entry per distinct source, no name twice, each counting the chunks of
      its source and carrying the upload time and subject of the first of
      them, counts adding up to the matches with metadata, latest upload first. */
  lemma DocumentStatsReport(stats: Call<Option<int>>, sample: Call<Option<seq<Match>>>)
    requires stats.Returned? && sample.Returned?
    ensures var ds := Described(sample.value.GetOr([]));
      var docs := GetDocumentStats(stats, sample).documents;
      && SortedDesc(docs)
      && DistinctNames(docs)
      && |docs| == |Dedup(Sources(ds))|
      && (forall s :: s in Sources(ds) <==> exists d :: d in docs && d.name == s)
      && (forall d :: d in docs ==>
            d.name in Sources(ds) && d.chunks == Count(Sources(ds), d.name)
            && FieldsFrom(d, ds[FirstIndex(Sources(ds), d.name)]))
      && TotalChunks(docs) == |ds|
  {
    var ds := Described(sample.value.GetOr([]));
    var g := Group(ds);
    assert GetDocumentStats(stats, sample).documents == SortDesc(g);
    GroupNames(ds);
    GroupEntries(ds);
    GroupMembers(ds);
    GroupTotal(ds);
    SortMembers(g);
    SortTotal(g);
    SortDistinct(g);
    SortDescSorted(g);
  }
}
