/**
 * The query engine: it searches the vector store, answers "nothing found"
 * when the search gives nothing, and otherwise asks the model with the
 * matches numbered and truncated in the prompt, returning the model's
 * suggestions with a short preview of every match. The vector store's
 * search, the chat model and Python's `str()` are passed in as functions.
 */
module QueryEngine {
  import opened Wrappers
  import opened PyText
  import opened Json
  import PineconeService

  type Match = PineconeService.Match

  datatype Engine = Engine(
    search: (string, Json, int) -> Option<seq<Match>>,  // the vector store's search; `None` is Python's None
    chat: string -> Option<string>,                      // the model under the fixed system prompt; `None` is an exception
    show: Json -> string)                                // str() of a value inside an f-string

  const NoContentMessage := "No relevant content found for this query."

  /** One entry of `relevant_chunks`. */
  datatype RelevantChunk = RelevantChunk(text: string, source: Json, tags: Json, confidence: real)

  /**
   * What `process_query` returns: the short answer (only `relevant_chunks`
   * and `suggestions`, no `query` key) or the full one.
   */
  datatype Response =
    | NothingFound(suggestions: string, relevantChunks: seq<RelevantChunk>)
    | Answer(query: string, suggestions: string, relevantChunks: seq<RelevantChunk>)

  function Min(a: int, b: int): int { if a <= b then a else b }

  /** `_get_chunk_preview`: the first 300 characters and an ellipsis; the query plays no part. */
  function ChunkPreview(text: string, query: string): (r: string)
    ensures |r| == Min(|text|, 300) + 3
    ensures forall i :: 0 <= i < |r| - 3 ==> r[i] == text[i]
    ensures r[|r| - 3] == '.' && r[|r| - 2] == '.' && r[|r| - 1] == '.'
  {
    Take(text, 300) + "..."
  }

  lemma PreviewIgnoresQuery(text: string, q1: string, q2: string)
    ensures ChunkPreview(text, q1) == ChunkPreview(text, q2)
    ensures |text| <= 300 ==> ChunkPreview(text, q1) == text + "..."
  {
  }

  /** The preview of a metadata value; slicing or concatenating anything but a string raises. */
  function PreviewOf(text: Json, query: string): (r: Option<string>)
    ensures r.Some? <==> text.JStr?
  {
    if text.JStr? then Some(ChunkPreview(text.s, query)) else None
  }

  /** One entry of the `relevant_chunks` comprehension. */
  function RelevantChunkOf(m: Match, query: string): (r: Option<RelevantChunk>)
    ensures r.Some? ==> r.value.confidence == m.score
    ensures r.Some? <==> m.metadata.JObj? && Get(m.metadata, "text", JStr("")).value.JStr?
    ensures r.Some? ==>
      var text := Lookup(m.metadata.fields, "text").GetOr(JStr(""));
      text.JStr? && r.value.text == ChunkPreview(text.s, query)
    ensures r.Some? ==>
      r.value.source == Lookup(m.metadata.fields, "source").GetOr(JStr("Unknown")) &&
      r.value.tags == Lookup(m.metadata.fields, "tags").GetOr(EmptyObject)
  {
    match Get(m.metadata, "text", JStr(""))
    case None => None
    case Some(text) =>
      match PreviewOf(text, query)
      case None => None
      case Some(preview) =>
        Some(RelevantChunk(preview,
                           Get(m.metadata, "source", JStr("Unknown")).value,
                           Get(m.metadata, "tags", EmptyObject).value,
                           m.score))
  }

  /** The comprehension over the first `n` matches, `entry` building each entry. */
  function RelevantChunks(entry: Match -> Option<RelevantChunk>, matches: seq<Match>, n: nat): Option<seq<RelevantChunk>>
    requires n <= |matches|
  {
    if n == 0 then Some([])
    else
      match RelevantChunks(entry, matches, n - 1)
      case None => None
      case Some(cs) =>
        match entry(matches[n - 1])
        case None => None
        case Some(c) => Some(cs + [c])
  }

  function EntryFor(query: string): Match -> Option<RelevantChunk>
  {
    m => RelevantChunkOf(m, query)
  }

  /** One entry per match, in match order: the entry of each match. */
  lemma {:induction false} RelevantChunksInOrder(entry: Match -> Option<RelevantChunk>, matches: seq<Match>, n: nat)
    requires n <= |matches| && RelevantChunks(entry, matches, n).Some?
    ensures var cs := RelevantChunks(entry, matches, n).value;
      |cs| == n && forall k :: 0 <= k < n ==> entry(matches[k]) == Some(cs[k])
  {
    if n > 0 {
      var prev := RelevantChunks(entry, matches, n - 1);
      var c := entry(matches[n - 1]);
      assert prev.Some? && c.Some?;
      RelevantChunksInOrder(entry, matches, n - 1);
      assert RelevantChunks(entry, matches, n).value == prev.value + [c.value];
    }
  }

  /** Every match has an entry, so the comprehension goes through. */
  lemma {:induction false} RelevantChunksExist(entry: Match -> Option<RelevantChunk>, matches: seq<Match>, n: nat)
    requires n <= |matches| && forall k :: 0 <= k < n ==> entry(matches[k]).Some?
    ensures RelevantChunks(entry, matches, n).Some?
  {
    if n > 0 {
      RelevantChunksExist(entry, matches, n - 1);
    }
  }

  /** The text shown for a match in the prompt: at most 500 characters of a string, or the first 500 items of a list. */
  function PromptText(text: Json, show: Json -> string): (r: Option<string>)
    ensures r.Some? <==> text.JStr? || text.JArr?
    ensures text.JStr? ==> r == Some(Take(text.s, 500)) && |r.value| <= 500
  {
    match text
    case JStr(s) => Some(Take(s, 500))
    case JArr(items) => Some(show(JArr(Take(items, 500))))
    case _ => None
  }

  /** The three prompt lines for the match at position `i`, numbered from 1. */
  function Block(show: Json -> string, i: nat, metadata: Json): Option<string>
  {
    match Get(metadata, "source", JStr("Unknown"))
    case None => None
    case Some(source) =>
      match PromptText(Get(metadata, "text", JStr("")).value, show)
      case None => None
      case Some(text) =>
        Some("CHUNK " + NatToString(i + 1) + " [Source: " + Format(source, show) + "]\n" +
             "Tags: " + Format(Get(metadata, "tags", EmptyObject).value, show) + "\n" +
             "Text: " + text + "...\n\n")
  }

  /** The formatted prompt material after the first `n` matches. */
  function Formatted(show: Json -> string, matches: seq<Match>, n: nat): Option<string>
    requires n <= |matches|
  {
    if n == 0 then Some("")
    else
      match Formatted(show, matches, n - 1)
      case None => None
      case Some(f) =>
        match Block(show, n - 1, matches[n - 1].metadata)
        case None => None
        case Some(b) => Some(f + b)
  }

  /** `_format_chunks_for_gpt`: the loop that appends one numbered block per match. */
  method FormatChunksForGpt(show: Json -> string, results: seq<Match>) returns (formatted: Option<string>)
    ensures formatted == Formatted(show, results, |results|)
  {
    var text := "";
    for i := 0 to |results|
      invariant Formatted(show, results, i) == Some(text)
    {
      var block := Block(show, i, results[i].metadata);
      if block.None? {
        FormattedRaiseStays(show, results, i + 1, |results|);
        return None;
      }
      text := text + block.value;
    }
    formatted := Some(text);
  }

  lemma {:induction false} FormattedRaiseStays(show: Json -> string, matches: seq<Match>, i: nat, n: nat)
    requires i <= n <= |matches| && Formatted(show, matches, i).None?
    ensures Formatted(show, matches, n).None?
    decreases n - i
  {
    if i < n {
      assert Formatted(show, matches, i + 1).None?;
      FormattedRaiseStays(show, matches, i + 1, n);
    }
  }

  /** Every one of the first `n` matches formats without raising. */
  predicate AllFormat(show: Json -> string, matches: seq<Match>, n: nat)
    requires n <= |matches|
  {
    forall k :: 0 <= k < n ==> Block(show, k, matches[k].metadata).Some?
  }

  /** The blocks of the first `n` matches, the `k`-th numbered `k + 1`. */
  function Blocks(show: Json -> string, matches: seq<Match>, n: nat): (r: seq<string>)
    requires n <= |matches| && AllFormat(show, matches, n)
    ensures |r| == n
    ensures forall k :: 0 <= k < n ==> r[k] == Block(show, k, matches[k].metadata).value
  {
    if n == 0 then []
    else
      var prev := Blocks(show, matches, n - 1);
      assert Block(show, n - 1, matches[n - 1].metadata).Some?;
      prev + [Block(show, n - 1, matches[n - 1].metadata).value]
  }

  /**
   * The material is the blocks of the matches numbered `1..n` in match
   * order, one after the other; it fails exactly when some block does.
   */
  lemma {:induction false} FormattedIsNumberedBlocks(show: Json -> string, matches: seq<Match>, n: nat)
    requires n <= |matches|
    ensures Formatted(show, matches, n).Some? <==> AllFormat(show, matches, n)
    ensures AllFormat(show, matches, n) ==> Formatted(show, matches, n) == Some(Concat(Blocks(show, matches, n)))
  {
    if n > 0 {
      FormattedIsNumberedBlocks(show, matches, n - 1);
      var prev := Formatted(show, matches, n - 1);
      var b := Block(show, n - 1, matches[n - 1].metadata);
      if prev.Some? && b.Some? {
        assert Formatted(show, matches, n) == Some(prev.value + b.value);
        assert AllFormat(show, matches, n - 1);
        forall k | 0 <= k < n ensures Block(show, k, matches[k].metadata).Some? {
          if k == n - 1 {
            assert Block(show, k, matches[k].metadata) == b;
          }
        }
        var blocks := Blocks(show, matches, n);
        assert blocks[..n - 1] == Blocks(show, matches, n - 1);
      } else {
        assert Formatted(show, matches, n).None?;
        if prev.None? {
          var k :| 0 <= k < n - 1 && Block(show, k, matches[k].metadata).None?;
          assert Block(show, k, matches[k].metadata).None?;
        } else {
          assert Block(show, n - 1, matches[n - 1].metadata).None?;
        }
      }
    }
  }

  /** The user message: the query and the formatted material. */
  function UserMessage(query: string, formatted: string): string
  {
    "Query: " + query + "\n\nRelevant Materials:\n" + formatted
  }

  /**
   * `process_query`: the short answer exactly when the search gives nothing;
   * otherwise the full answer for the query, or `None` where the prompt, the
   * model call or a relevant chunk raises.
   */
  function ProcessQuery(engine: Engine, query: string, filters: Json, topK: int): (r: Option<Response>)
    ensures var results := engine.search(query, filters, topK);
      r.Some? && r.value.NothingFound? <==> results.None? || results.value == []
    ensures r.Some? && r.value.NothingFound? ==> r.value.suggestions == NoContentMessage && r.value.relevantChunks == []
    ensures r.Some? && r.value.Answer? ==> r.value.query == query
    ensures var results := engine.search(query, filters, topK);
      r.Some? && r.value.Answer? ==>
        results.Some? && Formatted(engine.show, results.value, |results.value|).Some? &&
        engine.chat(UserMessage(query, Formatted(engine.show, results.value, |results.value|).value)) ==
          Some(r.value.suggestions)
  {
    var results := engine.search(query, filters, topK);
    if results.None? || results.value == [] then Some(NothingFound(NoContentMessage, []))
    else
      match Formatted(engine.show, results.value, |results.value|)
      case None => None
      case Some(formatted) =>
        match engine.chat(UserMessage(query, formatted))
        case None => None
        case Some(suggestions) =>
          match RelevantChunks(EntryFor(query), results.value, |results.value|)
          case None => None
          case Some(chunks) => Some(Answer(query, suggestions, chunks))
  }

  /** Without matches the answer is the fixed one, whatever the model would say: it is never asked. */
  lemma NothingFoundWithoutModel(engine: Engine, other: string -> Option<string>, query: string, filters: Json, topK: int)
    requires var results := engine.search(query, filters, topK); results.None? || results.value == []
    ensures ProcessQuery(engine, query, filters, topK) == Some(NothingFound(NoContentMessage, []))
    ensures ProcessQuery(Engine(engine.search, other, engine.show), query, filters, topK) ==
      Some(NothingFound(NoContentMessage, []))
  {
  }

  /**
   * A full answer comes back whenever the search gives matches, every block
   * formats, the model answers the prompt and every match previews; its
   * suggestions are the model's reply.
   */
  lemma FullAnswerWhenAllSucceed(engine: Engine, query: string, filters: Json, topK: int)
    requires var results := engine.search(query, filters, topK);
      results.Some? && results.value != [] &&
      Formatted(engine.show, results.value, |results.value|).Some? &&
      engine.chat(UserMessage(query, Formatted(engine.show, results.value, |results.value|).value)).Some? &&
      forall k :: 0 <= k < |results.value| ==> RelevantChunkOf(results.value[k], query).Some?
    ensures var results := engine.search(query, filters, topK);
      var r := ProcessQuery(engine, query, filters, topK);
      r.Some? && r.value.Answer? &&
      r.value.suggestions == engine.chat(UserMessage(query, Formatted(engine.show, results.value, |results.value|).value)).value
  {
    var results := engine.search(query, filters, topK).value;
    RelevantChunksExist(EntryFor(query), results, |results|);
  }

  /**
   * A full answer echoes the query and has one entry per match, in match
   * order, with the match's score as confidence, source defaulting to
   * "Unknown", tags to `{}`, and the preview of its text (default `''`),
   * at most 303 characters.
   */
  lemma AnswerShape(engine: Engine, query: string, filters: Json, topK: int)
    requires ProcessQuery(engine, query, filters, topK).Some?
    requires ProcessQuery(engine, query, filters, topK).value.Answer?
    ensures var results := engine.search(query, filters, topK).value;
      var answer := ProcessQuery(engine, query, filters, topK).value;
      answer.query == query && |answer.relevantChunks| == |results| > 0 &&
      forall k :: 0 <= k < |results| ==>
        var m := results[k].metadata;
        var c := answer.relevantChunks[k];
        m.JObj? && c.confidence == results[k].score &&
        c.source == Lookup(m.fields, "source").GetOr(JStr("Unknown")) &&
        c.tags == Lookup(m.fields, "tags").GetOr(EmptyObject) &&
        Lookup(m.fields, "text").GetOr(JStr("")).JStr? &&
        c.text == ChunkPreview(Lookup(m.fields, "text").GetOr(JStr("")).s, query) &&
        |c.text| <= 303
  {
    var results := engine.search(query, filters, topK).value;
    RelevantChunksInOrder(EntryFor(query), results, |results|);
  }

  /**
   * The index stores a chunk's text under `chunkText` and its file under
   * `filename`, but the engine reads `text` and `source`. When the engine
   * searches the index that `upsert_chunks` wrote, a match whose metadata
   * was written there previews as "..." from "Unknown", whatever the chunk
   * said.
   */
  lemma StoredMetadataReadsBlank(filename: string, i: nat, chunk: Json, id: Json, score: real, query: string)
    requires chunk.JObj?
    ensures RelevantChunkOf(PineconeService.Match(id, score, PineconeService.Metadata(filename, i, chunk)), query) ==
      Some(RelevantChunk("...", JStr("Unknown"), Get(chunk, "tags", EmptyArray).value, score))
  {
    var m := PineconeService.Metadata(filename, i, chunk);
    assert "tags"[1] != "text"[1];
    assert forall k :: 0 <= k < |m.fields| ==> m.fields[k].0 != "text" && m.fields[k].0 != "source";
    assert forall k :: 0 <= k < 4 ==> m.fields[k].0 != "tags";
    var tags := Get(chunk, "tags", EmptyArray).value;
    assert m.fields[4] == ("tags", tags);
    assert Get(m, "text", JStr("")) == Some(JStr(""));
    assert Get(m, "source", JStr("Unknown")) == Some(JStr("Unknown"));
    var found := Lookup(m.fields, "tags");
    assert found.Some? && ("tags", found.value) in m.fields;
    assert found.value == tags;
    assert ChunkPreview("", query) == "...";
  }
}
