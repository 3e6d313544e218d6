/** The upload route: the uploaded text is cut into fixed-size chunks, each chunk is
    embedded in turn, and chunk and embedding are appended to the in-memory dynamic
    knowledge base. */
module Upload {
  import opened Common

  /** The window size `chunkText` is called with (its default parameter). */
  const DefaultChunkSize: nat := 500

  // ---------------------------------------------------------------------------
  // Chunking
  // ---------------------------------------------------------------------------

  /** The chunk list of `text` for window size `n`, as a reference definition: a window
      of `n` characters, then the chunks of the rest. */
  function Chunks(text: string, n: nat): seq<string>
    requires n > 0
    decreases |text|
  {
    if |text| == 0 then []
    else if |text| <= n then [text]
    else [text[..n]] + Chunks(text[n..], n)
  }

  /** The number of windows of size `n` needed to cover `len` characters. */
  function CeilDiv(len: nat, n: nat): nat
    requires n > 0
  {
    (len + n - 1) / n
  }

  /** The chunks, written one after another, give back the text. */
  lemma {:induction false} ChunksConcat(text: string, n: nat)
    requires n > 0
    ensures Concat(Chunks(text, n)) == text
    decreases |text|
  {
    if |text| > n {
      var cs := Chunks(text, n);
      assert cs[1..] == Chunks(text[n..], n);
      ChunksConcat(text[n..], n);
      assert text == text[..n] + text[n..];
    }
  }

  lemma MulAtLeast(d: int, n: int)
    requires d >= 1 && n > 0
    ensures d * n >= n
    decreases d
  {
    if d > 1 {
      MulAtLeast(d - 1, n);
      assert d * n == (d - 1) * n + n;
    }
  }

  /** Euclidean division is determined by quotient and remainder. */
  lemma DivUnique(a: int, n: int, q: int, r: int)
    requires n > 0 && 0 <= r < n && a == q * n + r
    ensures a / n == q
  {
    var q', r' := a / n, a % n;
    assert a == q' * n + r';
    assert (q - q') * n == r' - r by {
      assert q * n - q' * n == (q - q') * n;
    }
    if q > q' {
      MulAtLeast(q - q', n);
    } else if q < q' {
      MulAtLeast(q' - q, n);
    }
  }

  lemma DivStep(len: nat, n: nat)
    requires n > 0
    ensures CeilDiv(len + n, n) == CeilDiv(len, n) + 1
  {
    var q, r := (len + n - 1) / n, (len + n - 1) % n;
    assert len + n - 1 == q * n + r;
    assert len + n + n - 1 == (q + 1) * n + r;
    DivUnique(len + n + n - 1, n, q + 1, r);
  }

  /** There are ceil(|text| / n) chunks; none at all for the empty text. */
  lemma {:induction false} ChunksCount(text: string, n: nat)
    requires n > 0
    ensures |Chunks(text, n)| == CeilDiv(|text|, n)
    ensures Chunks(text, n) == [] <==> |text| == 0
    decreases |text|
  {
    if |text| == 0 {
    } else if |text| <= n {
      assert CeilDiv(|text|, n) == 1 by {
        assert n <= |text| + n - 1 < 2 * n;
      }
    } else {
      ChunksCount(text[n..], n);
      DivStep(|text| - n, n);
    }
  }

  /** Every chunk is non-empty and at most `n` long; all but the last are exactly `n` long. */
  lemma {:induction false} ChunksShape(text: string, n: nat)
    requires n > 0
    ensures var cs := Chunks(text, n);
      forall k :: 0 <= k < |cs| ==> 0 < |cs[k]| <= n && (k < |cs| - 1 ==> |cs[k]| == n)
    decreases |text|
  {
    if |text| > n {
      var cs := Chunks(text, n);
      ChunksShape(text[n..], n);
      forall k | 0 <= k < |cs|
        ensures 0 < |cs[k]| <= n && (k < |cs| - 1 ==> |cs[k]| == n)
      {
        if k > 0 {
          assert cs[k] == Chunks(text[n..], n)[k - 1];
        }
      }
    }
  }

  /** Chunk `k` is the slice `text.slice(k * n, k * n + n)`, whose end is clamped to the
      text's length; this is what the source's loop pushes when its counter is `k * n`. */
  lemma {:induction false} ChunkAt(text: string, n: nat, k: nat)
    requires n > 0
    requires k < |Chunks(text, n)|
    ensures k * n < |text|
    ensures Chunks(text, n)[k] == text[k * n .. Min(k * n + n, |text|)]
    decreases |text|
  {
    if k > 0 {
      var rest := text[n..];
      assert Chunks(text, n)[k] == Chunks(rest, n)[k - 1];
      ChunkAt(rest, n, k - 1);
      assert (k - 1) * n + n == k * n;
      assert rest[(k - 1) * n .. Min((k - 1) * n + n, |rest|)]
          == text[k * n .. Min(k * n + n, |text|)];
    }
  }

  /** chunkText: a loop whose counter advances by `chunkSize`, pushing one slice per step.
      The only caller passes the default 500; with a size of 0 the loop would not end. */
  method ChunkText(text: string, chunkSize: nat) returns (chunks: seq<string>)
    requires chunkSize > 0
    ensures chunks == Chunks(text, chunkSize)
    ensures Concat(chunks) == text
  {
    chunks := [];
    var i := 0;
    while i < |text|
      invariant i <= |text| ==> chunks + Chunks(text[i..], chunkSize) == Chunks(text, chunkSize)
      invariant i > |text| ==> chunks == Chunks(text, chunkSize)
      decreases |text| - i
    {
      // String.prototype.slice clamps its end to the length of the string.
      var end := Min(i + chunkSize, |text|);
      var rest := text[i..];
      if |rest| > chunkSize {
        assert rest[..chunkSize] == text[i..end];
        assert rest[chunkSize..] == text[i + chunkSize..];
      } else {
        assert rest == text[i..end];
      }
      chunks := chunks + [text[i..end]];
      i := i + chunkSize;
    }
    ChunksConcat(text, chunkSize);
  }

  // ---------------------------------------------------------------------------
  // Ingestion
  // ---------------------------------------------------------------------------

  /** What one `embedContent` call gives: a reply carrying `embedding.values`, a reply that
      resolves without an `embedding` (reading `res.embedding.values` then throws, after the
      chunk was pushed), or a rejected call (it throws before anything is pushed). */
  datatype EmbedReply = Embedded(values: Vector) | NoEmbedding | Threw

  /** How many chunks, from the first, the embedder embeds before its first failure. */
  function EmbeddedPrefix(chunks: seq<string>, embed: string -> EmbedReply): (j: nat)
    ensures j <= |chunks|
    ensures forall k :: 0 <= k < j ==> embed(chunks[k]).Embedded?
    ensures j < |chunks| ==> !embed(chunks[j]).Embedded?
  {
    if |chunks| == 0 || !embed(chunks[0]).Embedded? then 0
    else 1 + EmbeddedPrefix(chunks[1..], embed)
  }

  /** The embeddings of `chunks`, in order, when the embedder embeds all of them. */
  function Embeddings(chunks: seq<string>, embed: string -> EmbedReply): seq<Vector>
    requires forall k :: 0 <= k < |chunks| ==> embed(chunks[k]).Embedded?
  {
    seq(|chunks|, k requires 0 <= k < |chunks| => embed(chunks[k]).values)
  }

  /** Embedding one more chunk extends the embeddings by that chunk's embedding. */
  lemma EmbeddingsStep(chunks: seq<string>, k: nat, embed: string -> EmbedReply)
    requires k < |chunks|
    requires forall m :: 0 <= m <= k ==> embed(chunks[m]).Embedded?
    ensures chunks[..k + 1] == chunks[..k] + [chunks[k]]
    ensures Embeddings(chunks[..k + 1], embed) == Embeddings(chunks[..k], embed) + [embed(chunks[k]).values]
  {
    assert chunks[..k + 1] == chunks[..k] + [chunks[k]];
  }

  /** The chunk, if any, that an upload of `chunks` appends to `dynamicKB` with no
      embedding: the first chunk not embedded, when its reply came without an embedding. */
  function Stray(chunks: seq<string>, embed: string -> EmbedReply): (r: seq<string>)
    ensures |r| <= 1
    ensures |r| == 1 <==>
      exists j :: 0 <= j < |chunks| && embed(chunks[j]).NoEmbedding?
                  && forall k :: 0 <= k < j ==> embed(chunks[k]).Embedded?
    ensures |r| == 1 ==> r == [chunks[EmbeddedPrefix(chunks, embed)]]
  {
    var j := EmbeddedPrefix(chunks, embed);
    if j < |chunks| && embed(chunks[j]).NoEmbedding? then [chunks[j]] else []
  }

  /** What the upload handler answers. */
  datatype UploadResponse =
    | Processed(chunks: nat)   // 200 "File processed successfully"
    | NoFile                   // 400 "No file uploaded"
    | UploadFailed             // 500, an embed call threw or its reply had no embedding
  {
    function Status(): nat
    {
      match this
      case Processed(_) => 200
      case NoFile => 400
      case UploadFailed => 500
    }
  }

  /** The module-level arrays `dynamicKB` and `dynamicEmbeddings`, which the handler
      appends to in place. */
  class UploadStore {
    var dynamicKB: seq<string>
    var dynamicEmbeddings: seq<Vector>

    /** Every embedding is pushed after its chunk, so embeddings never outnumber chunks.
        The arrays are parallel as long as no reply came without an embedding. */
    ghost predicate Valid()
      reads this
    {
      |dynamicEmbeddings| <= |dynamicKB|
    }

    /** Both arrays start empty, and so parallel, when the module is loaded. */
    constructor ()
      ensures Valid()
      ensures dynamicKB == [] && dynamicEmbeddings == []
    {
      dynamicKB, dynamicEmbeddings := [], [];
    }

    /** The POST handler. `file` is the uploaded file's text (None: the form has no file);
        `embed` is the embedding provider. The arrays grow by the embedded chunks and their
        embeddings; a reply without an embedding adds its chunk alone, after which entry k
        of `dynamicEmbeddings` no longer belongs to entry k of `dynamicKB`. */
    method Post(file: Option<string>, embed: string -> EmbedReply) returns (resp: UploadResponse)
      requires Valid()
      modifies this
      ensures Valid()
      ensures resp.Status() == 400 <==> file.None?
      ensures file.None? ==>
        resp == NoFile && dynamicKB == old(dynamicKB) && dynamicEmbeddings == old(dynamicEmbeddings)
      ensures file.Some? ==>
        var chunks := Chunks(file.value, DefaultChunkSize);
        var j := EmbeddedPrefix(chunks, embed);
        && dynamicKB == old(dynamicKB) + chunks[..j] + Stray(chunks, embed)
        && dynamicEmbeddings == old(dynamicEmbeddings) + Embeddings(chunks[..j], embed)
        && |dynamicKB| - |dynamicEmbeddings|
             == old(|dynamicKB| - |dynamicEmbeddings|) + |Stray(chunks, embed)|
        && resp == (if j == |chunks| then Processed(|chunks|) else UploadFailed)
    {
      if file.None? {
        return NoFile;
      }
      var chunks := ChunkText(file.value, DefaultChunkSize);
      ghost var j := EmbeddedPrefix(chunks, embed);
      var k := 0;
      while k < |chunks|
        invariant k <= j
        invariant |dynamicKB| == |old(dynamicKB)| + k && |dynamicEmbeddings| == |old(dynamicEmbeddings)| + k
        invariant dynamicKB == old(dynamicKB) + chunks[..k]
        invariant dynamicEmbeddings == old(dynamicEmbeddings) + Embeddings(chunks[..k], embed)
      {
        var res := embed(chunks[k]);
        if res.Threw? {
          assert k == j && Stray(chunks, embed) == [];
          return UploadFailed;
        }
        dynamicKB := dynamicKB + [chunks[k]];
        if res.NoEmbedding? {
          assert k == j && Stray(chunks, embed) == [chunks[k]];
          return UploadFailed;
        }
        EmbeddingsStep(chunks, k, embed);
        dynamicEmbeddings := dynamicEmbeddings + [res.values];
        k := k + 1;
      }
      assert k == j == |chunks| && chunks[..k] == chunks && Stray(chunks, embed) == [];
      return Processed(|chunks|);
    }
  }
}
