/** The chat route: two load-once caches (the static knowledge base and its embeddings)
    and the POST handler that embeds the question, ranks the cached embeddings and asks
    the generator for an answer. It searches the static knowledge base only. */
module Chat {
  import opened Common
  import opened Retrieval

  /** What the chat handler answers. */
  datatype ChatResponse =
    | Answer(answer: string, sources: seq<Option<string>>)   // 200 { answer, sources }
    | MissingQuestion                                       // 400 "Missing question"
    | ServerError                                           // 500, something threw
  {
    function Status(): nat
    {
      match this
      case Answer(_, _) => 200
      case MissingQuestion => 400
      case ServerError => 500
    }
  }

  /** `!question`: the question is absent or the empty string. */
  predicate Missing(question: Option<string>)
  {
    question.None? || question.value == ""
  }

  /** `items.map((i) => i.text)`: what the batch embedding call is given. */
  function Texts(items: seq<Item>): seq<string>
  {
    seq(|items|, i requires 0 <= i < |items| => items[i].text)
  }

  /** `cosineSim(qEmb, e)` for every cached embedding `e`, with the similarity as a
      parameter. */
  function Scores(q: Vector, embeddings: seq<Vector>, score: (Vector, Vector) -> real): seq<real>
  {
    seq(|embeddings|, i requires 0 <= i < |embeddings| => score(q, embeddings[i]))
  }

  /** The handler once both caches are filled: embed the question, retrieve, generate.
      The generator is given the question and the context (the prompt template around
      them is not modelled); None from an oracle means the call threw. */
  function Respond(question: string, items: seq<Item>, embeddings: seq<Vector>,
                   embedQuery: string -> Option<Vector>, score: (Vector, Vector) -> real,
                   generate: (string, string) -> Option<string>): (r: ChatResponse)
    ensures r != MissingQuestion
    ensures r.Answer? ==> |r.sources| == Min(TopK, |embeddings|)
    ensures r.Answer? <==>
      && embedQuery(question).Some?
      && Retrieve(items, Scores(embedQuery(question).value, embeddings, score)).Some?
      && generate(question,
           Retrieve(items, Scores(embedQuery(question).value, embeddings, score)).value.context).Some?
    ensures r.Answer? ==>
      var ret := Retrieve(items, Scores(embedQuery(question).value, embeddings, score)).value;
      r.answer == generate(question, ret.context).value && r.sources == ret.sources
  {
    match embedQuery(question)
    case None => ServerError
    case Some(q) =>
      var scores := Scores(q, embeddings, score);
      RetrieveSpec(items, scores);
      match Retrieve(items, scores)
      case None => ServerError
      case Some(ret) =>
        match generate(question, ret.context)
        case None => ServerError
        case Some(answer) => Answer(answer, ret.sources)
  }

  /** With one embedding per item, a question that is embedded and whose context the
      generator answers always gets an answer whose sources are the titles of the top
      three items. */
  lemma RespondAnswers(question: string, items: seq<Item>, embeddings: seq<Vector>,
                       embedQuery: string -> Option<Vector>, score: (Vector, Vector) -> real,
                       generate: (string, string) -> Option<string>)
    requires |embeddings| == |items|
    requires embedQuery(question).Some?
    requires var ret := Retrieve(items, Scores(embedQuery(question).value, embeddings, score));
      ret.None? || generate(question, ret.value.context).Some?
    ensures var r := Respond(question, items, embeddings, embedQuery, score, generate);
      var top := Rank(Scores(embedQuery(question).value, embeddings, score));
      && r.Answer?
      && |r.sources| == |top| == Min(TopK, |items|)
      && forall i :: 0 <= i < |top| ==> top[i].idx < |items| && r.sources[i] == items[top[i].idx].title
  {
    var scores := Scores(embedQuery(question).value, embeddings, score);
    RetrieveSpec(items, scores);
    RankTop(scores);
  }

  /** The module-level caches `kb` and `kbEmbeddings` (null until filled). The ghost
      counters record how often the knowledge file was read and the embedder was called. */
  class KnowledgeBase {
    var kb: Option<seq<Item>>
    var kbEmbeddings: Option<seq<Vector>>
    ghost var fileReads: nat
    ghost var embedderCalls: nat

    /** Embeddings are only ever computed from a loaded knowledge base. */
    ghost predicate Valid()
      reads this
    {
      kbEmbeddings.Some? ==> kb.Some?
    }

    /** Both caches start out null. */
    constructor ()
      ensures Valid()
      ensures kb == None && kbEmbeddings == None
      ensures fileReads == 0 && embedderCalls == 0
    {
      kb, kbEmbeddings := None, None;
      fileReads, embedderCalls := 0, 0;
    }

    /** loadKB. `file` is what reading and parsing `data/knowledge.json` gives (None: it
        throws). A filled cache is returned without reading; otherwise the read's result
        is stored (a failed read leaves the cache null) and returned. */
    method LoadKB(file: Option<seq<Item>>) returns (r: Option<seq<Item>>)
      requires Valid()
      modifies this
      ensures Valid()
      ensures old(kb).Some? ==> r == kb == old(kb) && fileReads == old(fileReads)
      ensures old(kb).None? ==> r == kb == file && fileReads == old(fileReads) + 1
      ensures kbEmbeddings == old(kbEmbeddings) && embedderCalls == old(embedderCalls)
    {
      if kb.Some? {
        return kb;
      }
      fileReads := fileReads + 1;
      kb := file;
      return kb;
    }

    /** ensureKBEmbeddings. `embedBatch` is the embedding call on all item texts at once
        (None: it throws). A filled cache is returned with no embedder call; on a failure
        the cache stays null, so a later call tries again. */
    method EnsureKBEmbeddings(file: Option<seq<Item>>, embedBatch: seq<string> -> Option<seq<Vector>>)
      returns (r: Option<seq<Vector>>)
      requires Valid()
      modifies this
      ensures Valid()
      ensures old(kbEmbeddings).Some? ==>
        && r == kbEmbeddings == old(kbEmbeddings)
        && kb == old(kb) && fileReads == old(fileReads) && embedderCalls == old(embedderCalls)
      ensures old(kbEmbeddings).None? ==>
        && kb == (if old(kb).Some? then old(kb) else file)
        && fileReads == old(fileReads) + (if old(kb).Some? then 0 else 1)
        && (kb.None? ==> r == kbEmbeddings == None && embedderCalls == old(embedderCalls))
        && (kb.Some? ==>
              r == kbEmbeddings == embedBatch(Texts(kb.value)) && embedderCalls == old(embedderCalls) + 1)
    {
      if kbEmbeddings.Some? {
        return kbEmbeddings;
      }
      var items := LoadKB(file);
      if items.None? {
        return None;
      }
      var result := embedBatch(Texts(items.value));
      embedderCalls := embedderCalls + 1;
      if result.None? {
        return None;
      }
      kbEmbeddings := result;
      return kbEmbeddings;
    }

    /** The POST handler. A missing question is answered 400 before anything is loaded or
        embedded; otherwise both caches are filled if need be, and the answer is Respond's
        on the cached values, or 500 when filling a cache failed. */
    method Post(question: Option<string>, file: Option<seq<Item>>,
                embedBatch: seq<string> -> Option<seq<Vector>>,
                embedQuery: string -> Option<Vector>, score: (Vector, Vector) -> real,
                generate: (string, string) -> Option<string>)
      returns (resp: ChatResponse)
      requires Valid()
      modifies this
      ensures Valid()
      ensures resp.Status() == 400 <==> Missing(question)
      ensures Missing(question) ==> resp == MissingQuestion && unchanged(this)
      ensures old(kb).Some? ==> kb == old(kb)
      ensures old(kbEmbeddings).Some? ==> kbEmbeddings == old(kbEmbeddings)
      ensures !Missing(question) ==>
        && kb == (if old(kb).Some? then old(kb) else file)
        && kbEmbeddings == (if old(kbEmbeddings).Some? then old(kbEmbeddings)
                            else if kb.Some? then embedBatch(Texts(kb.value)) else None)
        && fileReads == old(fileReads) + (if old(kb).Some? then 0 else 1)
        && embedderCalls == old(embedderCalls)
             + (if old(kbEmbeddings).None? && kb.Some? then 1 else 0)
             + (if kbEmbeddings.Some? then 1 else 0)
        && resp == (if kb.Some? && kbEmbeddings.Some?
                    then Respond(question.value, kb.value, kbEmbeddings.value, embedQuery, score, generate)
                    else ServerError)
    {
      if Missing(question) {
        return MissingQuestion;
      }
      var kbItems := LoadKB(file);
      if kbItems.None? {
        return ServerError;
      }
      var embeddings := EnsureKBEmbeddings(file, embedBatch);
      if embeddings.None? {
        return ServerError;
      }
      embedderCalls := embedderCalls + 1;  // the question's embedding
      resp := Respond(question.value, kbItems.value, embeddings.value, embedQuery, score, generate);
    }
  }
}
