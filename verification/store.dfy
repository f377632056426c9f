/** The vector-store side of `pinecone_client`: the records a query returns,
    and the result shapes of upsert, query and delete with the store call
    itself abstracted to whether it raised. */
module Store {
  import opened Wrappers
  import opened Text

  /** The string-valued entries of a match's metadata dict. */
  type Metadata = map<string, string>

  /** A query match; `metadata` is `None` when the key is absent or null. */
  datatype Match = Match(id: string, metadata: Option<Metadata>)

  /** The outcome of one call into the store: it raised `error`, or returned `value`. */
  datatype Call<T> = Raised(error: string) | Returned(value: T)

  /** `match.get('metadata')` is truthy: present and not an empty dict. */
  predicate HasMetadata(m: Match) {
    m.metadata.Some? && |m.metadata.value| > 0
  }

  /** `md.get(key, default)`. */
  function Get(md: Metadata, key: string, default: string): string {
    if key in md then md[key] else default
  }

  /** `md.get('source', 'Unknown')`: the document a chunk belongs to. */
  function SourceOf(md: Metadata): string {
    Get(md, "source", "Unknown")
  }

  /** `md.get('text', '')`: the chunk a match carries. */
  function TextOf(md: Metadata): string {
    Get(md, "text", "")
  }

  /** The metadata of the matches that have some, in match order: the
      matches that the loops over query results act on. */
  function Described(ms: seq<Match>): (ds: seq<Metadata>)
    ensures |ds| <= |ms|
  {
    if |ms| == 0 then []
    else
      var m := ms[|ms| - 1];
      Described(ms[..|ms| - 1]) + (if HasMetadata(m) then [m.metadata.value] else [])
  }

  /** Matches without metadata are skipped and the others kept in order. */
  lemma DescribedAppend(ms: seq<Match>, m: Match)
    ensures HasMetadata(m) ==> Described(ms + [m]) == Described(ms) + [m.metadata.value]
    ensures !HasMetadata(m) ==> Described(ms + [m]) == Described(ms)
  {
    assert (ms + [m])[..|ms|] == ms;
    assert Described(ms) + [] == Described(ms);
  }

  /** The defaulted source of each piece of metadata, in order. */
  function Sources(ds: seq<Metadata>): (srcs: seq<string>)
    ensures |srcs| == |ds|
    ensures forall k :: 0 <= k < |ds| ==> srcs[k] == SourceOf(ds[k])
  {
    if |ds| == 0 then [] else Sources(ds[..|ds| - 1]) + [SourceOf(ds[|ds| - 1])]
  }

  lemma SourcesAppend(ds: seq<Metadata>, md: Metadata)
    ensures Sources(ds + [md]) == Sources(ds) + [SourceOf(md)]
  {
    assert (ds + [md])[..|ds|] == ds;
  }

  /** `upsert_vectors(vectors)`: true exactly when the store accepted the batch. */
  function UpsertVectors(call: Call<()>): (ok: bool)
    ensures ok <==> call.Returned?
  {
    match call
    case Returned(_) => true
    case Raised(_) => false
  }

  /** `query_vectors(...)`: the `matches` of the store's reply, or none when
      the reply has no matches or the call raised. */
  function QueryVectors(call: Call<Option<seq<Match>>>): (ms: seq<Match>)
    ensures ms == [] || (call.Returned? && call.value == Some(ms))
    ensures call.Returned? && call.value.Some? ==> ms == call.value.value
  {
    match call
    case Returned(reply) => reply.GetOr([])
    case Raised(_) => []
  }

  datatype DeleteResult = DeleteResult(success: bool, message: string, source: string)

  const DeletedPrefix: string := "Successfully deleted "
  const DeleteErrorPrefix: string := "Error deleting document: "

  /** `delete_document(source_name)`: always echoes the source; succeeds
      exactly when the store's delete did not raise, and the message names
      the source on success and carries the store's error otherwise. */
  function DeleteDocument(sourceName: string, call: Call<()>): (r: DeleteResult)
    ensures r.source == sourceName
    ensures r.success <==> call.Returned?
    ensures r.success ==> StartsWith(r.message, DeletedPrefix) && OccursAt(sourceName, r.message, |DeletedPrefix|)
    ensures !r.success ==> StartsWith(r.message, DeleteErrorPrefix) && OccursAt(call.error, r.message, |DeleteErrorPrefix|)
  {
    match call
    case Returned(_) =>
      Juxtaposed(DeletedPrefix, sourceName);
      DeleteResult(true, DeletedPrefix + sourceName, sourceName)
    case Raised(e) =>
      Juxtaposed(DeleteErrorPrefix, e);
      DeleteResult(false, DeleteErrorPrefix + e, sourceName)
  }

  /** A concatenation starts with its first part and holds its second right after. */
  lemma Juxtaposed(a: string, b: string)
    ensures StartsWith(a + b, a) && OccursAt(b, a + b, |a|)
  {
    assert (a + b)[..|a|] == a;
    assert (a + b)[|a|..|a| + |b|] == b;
  }
}
