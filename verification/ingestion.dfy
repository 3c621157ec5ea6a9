/** The ingestion script of the vector store: the embedding inputs and the
    per-chunk metadata built from the chunks, the classification of an
    error thrown by `createIndex`, and the upserts that follow whatever that
    classification is. Chunking, embedding and the store itself are
    library calls; the embedding service is a parameter. */
module Ingestion {
  import opened Text
  import opened Wrappers

  const IndexName: string := "embeddings"
  const IndexDimension: nat := 1024
  const MetadataVersion: string := "1.0"

  /** A chunk as the script reads it: its text and the optional fields it
      copies into the metadata. */
  datatype Chunk = Chunk(
    text: string,
    id: Option<string>,
    source: Option<string>,
    category: Option<string>,
    language: Option<string>,
    author: Option<string>,
    score: Option<real>)

  /** The metadata stored with a chunk's vector (its creation timestamp
      aside). */
  datatype Metadata = Metadata(
    text: string,
    id: Option<string>,
    source: Option<string>,
    category: Option<string>,
    version: string,
    language: Option<string>,
    author: Option<string>,
    confidenceScore: Option<real>)

  /** An error thrown by `createIndex`, with its message when it has one. */
  datatype IndexError = IndexError(message: Option<string>)

  /** What the script concludes from `createIndex`. */
  datatype IndexCreation = Created | AlreadyExists | Unexpected

  datatype CreateIndexRequest = CreateIndexRequest(indexName: string, dimension: nat)

  datatype Upsert<V> = Upsert(indexName: string, vectors: seq<V>, metadata: Option<seq<Metadata>>)

  /** Everything the script asks of the embedding service and the store. */
  datatype Run<V> = Run(
    embeddingInputs: seq<string>,
    createIndex: CreateIndexRequest,
    indexCreation: IndexCreation,
    upserts: seq<Upsert<V>>)

  /** The values sent to the embedding service: the chunk texts, one per
      chunk, in chunk order. */
  function EmbeddingInputs(chunks: seq<Chunk>): (inputs: seq<string>)
    ensures |inputs| == |chunks|
    ensures forall i :: 0 <= i < |chunks| ==> inputs[i] == chunks[i].text
    decreases |chunks|
  {
    if chunks == [] then [] else [chunks[0].text] + EmbeddingInputs(chunks[1..])
  }

  function ChunkMetadata(c: Chunk): Metadata {
    Metadata(c.text, c.id, c.source, c.category, MetadataVersion, c.language, c.author, c.score)
  }

  /** The metadata list of the first upsert: one entry per chunk, in chunk
      order, copying the chunk's fields, its `score` as `confidenceScore`,
      and version "1.0". */
  function MetadataFor(chunks: seq<Chunk>): (ms: seq<Metadata>)
    ensures |ms| == |chunks|
    ensures forall i :: 0 <= i < |chunks| ==>
      && ms[i].text == chunks[i].text
      && ms[i].id == chunks[i].id
      && ms[i].source == chunks[i].source
      && ms[i].category == chunks[i].category
      && ms[i].version == "1.0"
      && ms[i].language == chunks[i].language
      && ms[i].author == chunks[i].author
      && ms[i].confidenceScore == chunks[i].score
    decreases |chunks|
  {
    if chunks == [] then [] else [ChunkMetadata(chunks[0])] + MetadataFor(chunks[1..])
  }

  /** The `i`-th metadata entry describes the `i`-th embedding input: the
      store pairs each vector with the text it was computed from. */
  lemma MetadataMatchesEmbeddingInputs(chunks: seq<Chunk>)
    ensures |MetadataFor(chunks)| == |EmbeddingInputs(chunks)|
    ensures forall i :: 0 <= i < |chunks| ==> MetadataFor(chunks)[i].text == EmbeddingInputs(chunks)[i]
  {
  }

  /** The test the script applies to the message of a `createIndex` error:
      present, non-empty, and in lower case containing "already exists",
      "already created" or "exists". */
  predicate IsAlreadyExistsMessage(message: Option<string>) {
    match message
    case None => false
    case Some(m) =>
      m != [] &&
      var lower := Lower(m);
      Contains(lower, "already exists") || Contains(lower, "already created") || Contains(lower, "exists")
  }

  /** The outcome of `createIndex`: no error means created; an error is
      either an index that already exists or an unexpected failure. */
  function ClassifyCreateIndex(thrown: Option<IndexError>): (c: IndexCreation)
    ensures c == Created <==> thrown.None?
    ensures c == AlreadyExists <==> thrown.Some? && IsAlreadyExistsMessage(thrown.value.message)
  {
    match thrown
    case None => Created
    case Some(e) => if IsAlreadyExistsMessage(e.message) then AlreadyExists else Unexpected
  }

  /** Because "already exists" contains "exists", and an empty message
      contains neither phrase, the test reduces to: the message contains
      "exists" or "already created". */
  lemma AlreadyExistsTestReduces(m: string)
    ensures IsAlreadyExistsMessage(Some(m))
        <==> Contains(Lower(m), "exists") || Contains(Lower(m), "already created")
  {
    var lower := Lower(m);
    ContainsInfix("already ", "exists", []);
    assert "already " + "exists" + [] == "already exists";
    if Contains(lower, "already exists") {
      ContainsTransitive(lower, "already exists", "exists");
    }
  }

  /** The classification does not depend on the letter case of the
      message: two messages that agree once lower-cased are classified
      alike, and so are a message and its upper- or lower-case form. */
  lemma ClassificationIgnoresCase(m1: string, m2: string)
    ensures Lower(m1) == Lower(m2) ==>
      ClassifyCreateIndex(Some(IndexError(Some(m1)))) == ClassifyCreateIndex(Some(IndexError(Some(m2))))
    ensures ClassifyCreateIndex(Some(IndexError(Some(Upper(m1)))))
         == ClassifyCreateIndex(Some(IndexError(Some(m1))))
    ensures ClassifyCreateIndex(Some(IndexError(Some(Lower(m1)))))
         == ClassifyCreateIndex(Some(IndexError(Some(m1))))
  {
    LowerOfUpper(m1);
    LowerIdempotent(m1);
  }

  /** An error without a message, or with an empty one, is unexpected. */
  lemma MissingMessageIsUnexpected()
    ensures ClassifyCreateIndex(Some(IndexError(None))) == Unexpected
    ensures ClassifyCreateIndex(Some(IndexError(Some([])))) == Unexpected
  {
  }

  /** The script: embed the chunk texts, create the index, then upsert the
      vectors twice, first with the chunk metadata and then without. */
  function Ingest<V>(chunks: seq<Chunk>, embed: seq<string> -> seq<V>, thrown: Option<IndexError>): (run: Run<V>)
    ensures run.embeddingInputs == EmbeddingInputs(chunks)
    ensures run.createIndex == CreateIndexRequest("embeddings", 1024)
    ensures run.indexCreation == ClassifyCreateIndex(thrown)
    ensures |run.upserts| == 2
    ensures forall k :: 0 <= k < 2 ==>
      run.upserts[k].indexName == "embeddings" && run.upserts[k].vectors == embed(EmbeddingInputs(chunks))
    ensures run.upserts[0].metadata == Some(MetadataFor(chunks))
    ensures run.upserts[1].metadata == None
  {
    var inputs := EmbeddingInputs(chunks);
    var vectors := embed(inputs);
    Run(inputs,
        CreateIndexRequest(IndexName, IndexDimension),
        ClassifyCreateIndex(thrown),
        [Upsert(IndexName, vectors, Some(MetadataFor(chunks))), Upsert(IndexName, vectors, None)])
  }

  /** Neither outcome of `createIndex` stops the script: the upserts are the
      same whether the index was created, already existed, or failed. */
  lemma UpsertsDoNotDependOnCreateIndex<V>(chunks: seq<Chunk>, embed: seq<string> -> seq<V>,
                                          thrown1: Option<IndexError>, thrown2: Option<IndexError>)
    ensures Ingest(chunks, embed, thrown1).upserts == Ingest(chunks, embed, thrown2).upserts
  {
  }
}
