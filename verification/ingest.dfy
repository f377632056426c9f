/** Turning extracted text into vector records, shared by
    `ingest_notes.ingest_file` and the upload route: one record per chunk,
    numbered by position, tagged with the file name and, when given, the
    subject, chapter and upload time. */
module Ingest {
  import opened Wrappers
  import opened Text
  import opened Chunker
  import opened Store
  import opened Registry

  /** The metadata dict of one record; `chunk_index` is the only non-string entry. */
  datatype VectorMetadata = VectorMetadata(
    text: string,
    source: string,
    chunkIndex: nat,
    uploadTime: Option<string>,
    subject: Option<string>,
    chapter: Option<string>)

  /** `(vector_id, embedding, metadata)`; the embedding type is left abstract. */
  datatype Vector<E> = Vector(id: string, embedding: E, metadata: VectorMetadata)

  /** What an upload attaches to every record of a file. */
  datatype Tags = Tags(source: string, subject: Option<string>, chapter: Option<string>)

  /** `if subject: metadata["subject"] = subject` keeps only truthy values. */
  function IfTruthy(s: Option<string>): (r: Option<string>)
    ensures r.Some? <==> Truthy(s)
    ensures r.Some? ==> r == s
  {
    if Truthy(s) then s else None
  }

  /** The metadata of chunk `i`; `clock(i)` is the time stamp the upload
      route takes for it, and `ingest_file` takes none. */
  function MetadataFor(chunk: string, i: nat, tags: Tags, clock: Option<nat -> string>): VectorMetadata {
    VectorMetadata(chunk, tags.source, i,
      if clock.Some? then Some(clock.value(i)) else None,
      IfTruthy(tags.subject), IfTruthy(tags.chapter))
  }

  /** Vector `i` is chunk `i` with its own id, its embedding and its metadata. */
  predicate RecordFor<E(==)>(v: Vector<E>, chunks: seq<string>, i: nat, tags: Tags,
                         ids: nat -> string, encode: string -> E, clock: Option<nat -> string>)
    requires i < |chunks|
  {
    && v.id == ids(i)
    && v.embedding == encode(chunks[i])
    && v.metadata.text == chunks[i]
    && v.metadata.source == tags.source
    && v.metadata.chunkIndex == i
    && v.metadata.uploadTime == (if clock.Some? then Some(clock.value(i)) else None)
    && (v.metadata.subject.Some? <==> Truthy(tags.subject))
    && (v.metadata.subject.Some? ==> v.metadata.subject == tags.subject)
    && (v.metadata.chapter.Some? <==> Truthy(tags.chapter))
    && (v.metadata.chapter.Some? ==> v.metadata.chapter == tags.chapter)
  }

  /** The `for i, (chunk, embedding) in enumerate(zip(chunks, embeddings))`
      loop: exactly one record per chunk, in chunk order. `ids(i)` stands for
      the fresh UUID of record `i` and `encode` for the embedding model. */
  method BuildVectors<E(==)>(chunks: seq<string>, tags: Tags, ids: nat -> string, encode: string -> E,
                         clock: Option<nat -> string>)
    returns (vectors: seq<Vector<E>>)
    ensures |vectors| == |chunks|
    ensures forall i :: 0 <= i < |chunks| ==> RecordFor(vectors[i], chunks, i, tags, ids, encode, clock)
  {
    vectors := [];
    var i := 0;
    while i < |chunks|
      invariant 0 <= i <= |chunks| && |vectors| == i
      invariant forall k :: 0 <= k < i ==> RecordFor(vectors[k], chunks, k, tags, ids, encode, clock)
    {
      var metadata := MetadataFor(chunks[i], i, tags, clock);
      vectors := vectors + [Vector(ids(i), encode(chunks[i]), metadata)];
      i := i + 1;
    }
  }

  /** The metadata dict as the store hands it back: its string entries. */
  function Stored(m: VectorMetadata): (md: Metadata)
    ensures SourceOf(md) == m.source
    ensures UploadTimeOf(md) == m.uploadTime.GetOr("Unknown")
    ensures SubjectOf(md) == m.subject.GetOr("General")
  {
    var base := map["text" := m.text, "source" := m.source];
    var timed := if m.uploadTime.Some? then base["upload_time" := m.uploadTime.value] else base;
    var filed := if m.subject.Some? then timed["subject" := m.subject.value] else timed;
    if m.chapter.Some? then filed["chapter" := m.chapter.value] else filed
  }

  function StoredAll<E>(vectors: seq<Vector<E>>): (ds: seq<Metadata>)
    ensures |ds| == |vectors|
    ensures forall k :: 0 <= k < |vectors| ==> ds[k] == Stored(vectors[k].metadata)
  {
    if |vectors| == 0 then [] else StoredAll(vectors[..|vectors| - 1]) + [Stored(vectors[|vectors| - 1].metadata)]
  }

  /** Once a file's records are stored, the document registry lists the file
      as one document counting all of its chunks, with the upload time of its
      first chunk and its subject, or the registry's defaults. */
  lemma UploadedFileIsOneDocument<E>(vectors: seq<Vector<E>>, chunks: seq<string>, tags: Tags,
                                     ids: nat -> string, encode: string -> E, clock: Option<nat -> string>)
    requires |vectors| == |chunks| > 0
    requires forall i :: 0 <= i < |chunks| ==> RecordFor(vectors[i], chunks, i, tags, ids, encode, clock)
    ensures Group(StoredAll(vectors)) == [DocInfo(tags.source, |chunks|,
      if clock.Some? then clock.value(0) else "Unknown",
      if Truthy(tags.subject) then tags.subject.value else "General")]
  {
    var ds := StoredAll(vectors);
    assert RecordFor(vectors[0], chunks, 0, tags, ids, encode, clock);
    GroupOneSource(ds, tags.source);
  }

  /** `os.path.basename`: the part after the last slash. */
  function Basename(path: string): (name: string)
    ensures |name| <= |path| && name == path[|path| - |name|..]
    ensures forall k :: 0 <= k < |name| ==> name[k] != '/'
    ensures |name| < |path| ==> path[|path| - |name| - 1] == '/'
  {
    if |path| == 0 || path[|path| - 1] == '/' then ""
    else Basename(path[..|path| - 1]) + [path[|path| - 1]]
  }

  /** `ingest_file(file_path, subject, chapter)`: whether the file exists,
      its extracted text and the outcome of the upsert are inputs. Returns
      the number of chunks ingested and the records sent to the store. */
  method IngestFile<E(==)>(fileExists: bool, path: string, text: string, subject: Option<string>,
                       chapter: Option<string>, ids: nat -> string, encode: string -> E, upsert: Call<()>)
    returns (count: nat, sent: seq<Vector<E>>)
    ensures !fileExists || Strip(text) == [] ==> count == 0 && sent == []
    ensures fileExists && Strip(text) != [] ==>
      && |sent| == |ChunkText(text, IngestChunkSize, IngestOverlap)|
      && forall i :: 0 <= i < |sent| ==>
           RecordFor(sent[i], ChunkText(text, IngestChunkSize, IngestOverlap), i,
             Tags(Basename(path), subject, chapter), ids, encode, None)
    ensures count == (if fileExists && Strip(text) != [] && upsert.Returned? then |sent| else 0)
  {
    if !fileExists || Strip(text) == [] {
      return 0, [];
    }
    var chunks := ChunkText(text, IngestChunkSize, IngestOverlap);
    sent := BuildVectors(chunks, Tags(Basename(path), subject, chapter), ids, encode, None);
    count := if UpsertVectors(upsert) then |chunks| else 0;
  }
}
