/**
 * The language-model service: it turns a document into chunks and tags
 * (through the vision model for images, page by page for page lists, and
 * through two chat calls for text), and it answers a query from every
 * stored chunk. The models, `json.loads`, `json.dumps` and Python's `str()`
 * on non-string values are passed in as functions.
 */
module OpenAIService {
  import opened Wrappers
  import opened PyText
  import opened Json
  import DocumentProcessor

  /** The fixed system instructions of a chat request. */
  datatype Instructions =
    | ChunkingInstructions   // split educational content into text/summary/context chunks
    | TaggingInstructions    // pick among the 16 named behavioural competencies
    | AssistantInstructions  // answer as an educational content assistant

  datatype Request = Request(instructions: Instructions, user: string)

  /**
   * The outside world of the service. `None` from a model call is an API
   * exception; `None` from `loads` is a parse error.
   */
  datatype Client = Client(
    chat: Request -> Option<string>,        // a chat completion's message content
    vision: seq<Byte> -> Option<string>,    // the vision model on a base64-encoded image
    loads: string -> Option<Json>,          // json.loads
    dumps: Json -> string,                  // json.dumps
    show: Json -> string)                   // str() of a value inside an f-string

  /** What `process_document` is given: text, image bytes, or a list of page texts. */
  datatype DocContent = Text(text: string) | Bytes(bytes: seq<Byte>) | Pages(pages: seq<string>)

  /** The `(chunks, tags)` pair `process_document` returns. */
  datatype Processed = Processed(chunks: Json, tags: Json)

  const NoResult := Processed(EmptyArray, EmptyObject)

  // ---------------------------------------------------------------------
  // Parsing the model's answers

  /** `_parse_chunks`: the `"chunks"` value of the parsed object (default `[]`), or `[]` when parsing fails or gives no dict. */
  function ParseChunks(client: Client, response: string): (r: Json)
    ensures client.loads(response).None? ==> r == EmptyArray
    ensures client.loads(response).Some? && !client.loads(response).value.JObj? ==> r == EmptyArray
    ensures client.loads(response).Some? && client.loads(response).value.JObj? ==>
      r == Lookup(client.loads(response).value.fields, "chunks").GetOr(EmptyArray)
  {
    match client.loads(response)
    case None => EmptyArray
    case Some(parsed) => Get(parsed, "chunks", EmptyArray).GetOr(EmptyArray)
  }

  /** `_parse_tags`: the parsed value unmodified, whatever its shape or length, or `{}` when parsing fails. */
  function ParseTags(client: Client, response: string): (r: Json)
    ensures client.loads(response).Some? ==> r == client.loads(response).value
    ensures client.loads(response).None? ==> r == EmptyObject
  {
    client.loads(response).GetOr(EmptyObject)
  }

  /** The piece of a reply from its first '{' through its last '}', when there is a '}' after the first '{'. */
  function JsonSlice(content: string): Option<string>
  {
    var start := Find(content, "{");
    var stop := RFind(content, "}") + 1;
    if start >= 0 && stop > start then Some(content[start..stop]) else None
  }

  /**
   * The slice exists exactly when some '{' comes before some '}'; it then
   * starts at the first '{' and ends at the last '}' of the reply.
   */
  lemma JsonSliceSpec(content: string)
    ensures JsonSlice(content).Some? <==>
      exists i, j :: 0 <= i < j < |content| && content[i] == '{' && content[j] == '}'
    ensures JsonSlice(content).Some? ==>
      var s := JsonSlice(content).value;
      |s| >= 2 && s[0] == '{' && s[|s| - 1] == '}' &&
      exists i :: OccursAt(content, s, i) && '{' !in content[..i] && '}' !in content[i + |s|..]
  {
    var start := Find(content, "{");
    var last := RFind(content, "}");
    FindChar(content, '{');
    RFindChar(content, '}');
    if JsonSlice(content).Some? {
      var s := content[start..last + 1];
      assert s[0] == content[start] && s[|s| - 1] == content[last];
      assert OccursAt(content, s, start);
      assert content[start] == '{' && content[last] == '}';
    }
  }

  // ---------------------------------------------------------------------
  // process_document

  /** The image branch: the vision model's reply, its JSON slice parsed, `chunks` and `tags` read with their defaults. */
  function ImageBranch(client: Client, image: seq<Byte>): (r: Option<Processed>)
    ensures r.Some? <==> client.vision(image).Some?
    ensures client.vision(image).Some? && JsonSlice(client.vision(image).value).None? ==> r == Some(NoResult)
  {
    match client.vision(image)
    case None => None
    case Some(content) =>
      Some(
        match JsonSlice(content)
        case None => NoResult
        case Some(slice) =>
          match client.loads(slice)
          case None => NoResult
          case Some(result) =>
            match Get(result, "chunks", EmptyArray)
            case None => NoResult
            case Some(chunks) => Processed(chunks, Get(result, "tags", EmptyObject).GetOr(EmptyObject)))
  }

  /** A reply whose slice does not parse to a dict gives `([], {})`; a dict gives its fields with their defaults. */
  lemma ImageBranchParse(client: Client, image: seq<Byte>)
    requires client.vision(image).Some? && JsonSlice(client.vision(image).value).Some?
    ensures var parsed := client.loads(JsonSlice(client.vision(image).value).value);
      ImageBranch(client, image) ==
        if parsed.None? || !parsed.value.JObj? then Some(NoResult)
        else Some(Processed(Lookup(parsed.value.fields, "chunks").GetOr(EmptyArray),
                            Lookup(parsed.value.fields, "tags").GetOr(EmptyObject)))
  {
  }

  /** The user message of the text branch's chunking call: at most the first 10000 characters. */
  function ChunkMessage(text: string): (r: string)
    ensures |r| <= 10000 + 50
  {
    "Here's the document to process: " + Take(text, 10000) + "... (truncated)"
  }

  /** The user message of a tagging call: at most the first 5000 characters. */
  function TagMessage(text: string): (r: string)
    ensures |r| <= 5000 + 50
  {
    "Document chunk to tag: " + Take(text, 5000) + "... (truncated)"
  }

  const PageIntro := "Here's page "

  /** The user message of a page's chunking call: the whole page, numbered from 1. */
  function PageMessage(index: nat, page: string): (r: string)
    ensures |r| > |PageIntro| + |page| && r[|r| - |page|..] == page
    ensures r[..|PageIntro|] == PageIntro && Contains(r, NatToString(index + 1))
  {
    var head := PageIntro;
    var number := NatToString(index + 1);
    var tail := " of the document to process:\n" + page;
    ContainsSelf(number);
    ContainsExtend(number, number, head, tail);
    head + number + tail
  }

  /** The text branch: one chunking call and one tagging call on truncated text. */
  function TextBranch(client: Client, text: string): (r: Option<Processed>)
    ensures r.Some? <==>
      client.chat(Request(ChunkingInstructions, ChunkMessage(text))).Some? &&
      client.chat(Request(TaggingInstructions, TagMessage(text))).Some?
    ensures r.Some? ==>
      r.value.chunks == ParseChunks(client, client.chat(Request(ChunkingInstructions, ChunkMessage(text))).value) &&
      r.value.tags == ParseTags(client, client.chat(Request(TaggingInstructions, TagMessage(text))).value)
  {
    match client.chat(Request(ChunkingInstructions, ChunkMessage(text)))
    case None => None
    case Some(chunkReply) =>
      var chunks := ParseChunks(client, chunkReply);
      match client.chat(Request(TaggingInstructions, TagMessage(text)))
      case None => None
      case Some(tagReply) => Some(Processed(chunks, ParseTags(client, tagReply)))
  }

  /** Only the first 10000 characters of a text reach the models: texts that agree on them are processed alike. */
  lemma TextBranchSeesPrefix(client: Client, a: string, b: string)
    requires Take(a, 10000) == Take(b, 10000)
    ensures TextBranch(client, a) == TextBranch(client, b)
  {
    assert Take(a, 5000) == Take(a, 10000)[..|Take(a, 5000)|];
    assert Take(b, 5000) == Take(b, 10000)[..|Take(b, 5000)|];
  }

  /** What one non-blank page adds: its chunk list (as `list.extend` iterates it) and its tags. */
  function PageResult(client: Client, index: nat, page: string): Option<(seq<Json>, Json)>
  {
    match client.chat(Request(ChunkingInstructions, PageMessage(index, page)))
    case None => None
    case Some(chunkReply) =>
      match client.chat(Request(TaggingInstructions, TagMessage(page)))
      case None => None
      case Some(tagReply) =>
        match Iterate(ParseChunks(client, chunkReply))
        case None => None
        case Some(chunks) => Some((chunks, ParseTags(client, tagReply)))
  }

  /** What a non-blank page adds, as a function of its index and text. */
  type PageStep = (nat, string) -> Option<(seq<Json>, Json)>

  function PageStepOf(client: Client): PageStep
  {
    (index: nat, page: string) => PageResult(client, index, page)
  }

  /** The page loop's lists after the first `n` pages, or `None` once a call or an `extend` raised. */
  function PagesUpTo(step: PageStep, pages: seq<string>, n: nat): Option<(seq<Json>, seq<Json>)>
    requires n <= |pages|
  {
    if n == 0 then Some(([], []))
    else
      match PagesUpTo(step, pages, n - 1)
      case None => None
      case Some(acc) =>
        if IsBlank(pages[n - 1]) then Some(acc)
        else
          match step(n - 1, pages[n - 1])
          case None => None
          case Some(page) => Some((acc.0 + page.0, acc.1 + [page.1]))
  }

  lemma {:induction false} PagesRaiseStays(step: PageStep, pages: seq<string>, i: nat, n: nat)
    requires i <= n <= |pages| && PagesUpTo(step, pages, i).None?
    ensures PagesUpTo(step, pages, n).None?
    decreases n - i
  {
    if i < n {
      assert PagesUpTo(step, pages, i + 1).None?;
      PagesRaiseStays(step, pages, i + 1, n);
    }
  }

  /** The non-blank pages, with their positions in the page list. */
  function NonBlankPages(pages: seq<string>, n: nat): (r: seq<(nat, string)>)
    requires n <= |pages|
    ensures forall e :: e in r ==> e.0 < n && pages[e.0] == e.1 && !IsBlank(e.1)
  {
    if n == 0 then []
    else if IsBlank(pages[n - 1]) then NonBlankPages(pages, n - 1)
    else NonBlankPages(pages, n - 1) + [(n - 1, pages[n - 1])]
  }

  /** Every non-blank page is kept, and the kept pages are in page order. */
  lemma {:induction false} NonBlankPagesExact(pages: seq<string>, n: nat)
    requires n <= |pages|
    ensures forall i :: 0 <= i < n && !IsBlank(pages[i]) ==> (i, pages[i]) in NonBlankPages(pages, n)
    ensures forall k, m :: 0 <= k < m < |NonBlankPages(pages, n)| ==>
      NonBlankPages(pages, n)[k].0 < NonBlankPages(pages, n)[m].0
  {
    if n > 0 {
      NonBlankPagesExact(pages, n - 1);
      var prev := NonBlankPages(pages, n - 1);
      if IsBlank(pages[n - 1]) {
        assert NonBlankPages(pages, n) == prev;
      } else {
        var r := prev + [(n - 1, pages[n - 1])];
        assert NonBlankPages(pages, n) == r;
        forall k, m | 0 <= k < m < |r| ensures r[k].0 < r[m].0 {
          assert r[k] == prev[k] && prev[k] in prev;
          if m < |prev| {
            assert r[m] == prev[m];
          } else {
            assert r[m].0 == n - 1;
          }
        }
      }
    }
  }

  /** Every non-blank page's model calls succeeded. */
  predicate PagesSucceed(step: PageStep, kept: seq<(nat, string)>)
  {
    forall j :: 0 <= j < |kept| ==> step(kept[j].0, kept[j].1).Some?
  }

  /** The concatenated chunk lists of pages whose calls succeeded. */
  function ChunksOf(step: PageStep, kept: seq<(nat, string)>): seq<Json>
    requires PagesSucceed(step, kept)
  {
    if kept == [] then []
    else
      var last := kept[|kept| - 1];
      var front := kept[..|kept| - 1];
      assert forall j :: 0 <= j < |front| ==> front[j] == kept[j];
      ChunksOf(step, front) + step(last.0, last.1).value.0
  }

  /** One parsed tagging reply per page, in order. */
  function TagsOf(step: PageStep, kept: seq<(nat, string)>): (r: seq<Json>)
    requires PagesSucceed(step, kept)
    ensures |r| == |kept|
    ensures forall j :: 0 <= j < |kept| ==> r[j] == step(kept[j].0, kept[j].1).value.1
  {
    if kept == [] then []
    else
      var last := kept[|kept| - 1];
      var front := kept[..|kept| - 1];
      assert forall j :: 0 <= j < |front| ==> front[j] == kept[j];
      TagsOf(step, front) + [step(last.0, last.1).value.1]
  }

  /**
   * The page branch's lists are those of the non-blank pages, in page
   * order: every such page's chunk list in turn, and one tags entry per
   * such page. Blank pages add nothing.
   */
  lemma {:induction false} PagesInOrder(step: PageStep, pages: seq<string>, n: nat)
    requires n <= |pages| && PagesUpTo(step, pages, n).Some?
    ensures PagesSucceed(step, NonBlankPages(pages, n))
    ensures PagesUpTo(step, pages, n).value.0 == ChunksOf(step, NonBlankPages(pages, n))
    ensures PagesUpTo(step, pages, n).value.1 == TagsOf(step, NonBlankPages(pages, n))
  {
    if n > 0 {
      assert PagesUpTo(step, pages, n - 1).Some?;
      PagesInOrder(step, pages, n - 1);
      var kept := NonBlankPages(pages, n - 1);
      if !IsBlank(pages[n - 1]) {
        PagesAppend(step, kept, n - 1, pages[n - 1]);
      }
    }
  }

  lemma PagesAppend(step: PageStep, kept: seq<(nat, string)>, index: nat, page: string)
    requires PagesSucceed(step, kept) && step(index, page).Some?
    ensures PagesSucceed(step, kept + [(index, page)])
    ensures ChunksOf(step, kept + [(index, page)]) ==
      ChunksOf(step, kept) + step(index, page).value.0
    ensures TagsOf(step, kept + [(index, page)]) ==
      TagsOf(step, kept) + [step(index, page).value.1]
  {
    var all := kept + [(index, page)];
    assert all[..|all| - 1] == kept;
    assert PagesSucceed(step, all) by {
      forall j | 0 <= j < |all| ensures step(all[j].0, all[j].1).Some? {
        if j < |kept| {
          assert all[j] == kept[j];
        }
      }
    }
  }

  /** Pages that are all blank give empty lists and make no model call. */
  lemma {:induction false} BlankPagesGiveNothing(step: PageStep, pages: seq<string>, n: nat)
    requires n <= |pages| && forall i :: 0 <= i < n ==> IsBlank(pages[i])
    ensures PagesUpTo(step, pages, n) == Some(([], []))
  {
    if n > 0 {
      BlankPagesGiveNothing(step, pages, n - 1);
    }
  }

  /** One non-blank page of the loop: its two model calls, then the `extend` of its chunk list. */
  method ProcessPage(client: Client, index: nat, pageText: string) returns (r: Option<(seq<Json>, Json)>)
    ensures r == PageResult(client, index, pageText)
  {
    var chunkReply := client.chat(Request(ChunkingInstructions, PageMessage(index, pageText)));
    if chunkReply.None? {
      return None;
    }
    var pageChunks := ParseChunks(client, chunkReply.value);
    var tagReply := client.chat(Request(TaggingInstructions, TagMessage(pageText)));
    if tagReply.None? {
      return None;
    }
    var pageTags := ParseTags(client, tagReply.value);
    var extension := Iterate(pageChunks);
    if extension.None? {
      return None;
    }
    r := Some((extension.value, pageTags));
  }

  /** A non-blank page whose calls raise makes the whole loop raise. */
  lemma PageRaises(step: PageStep, pages: seq<string>, i: nat)
    requires i < |pages| && !IsBlank(pages[i]) && step(i, pages[i]).None?
    ensures PagesUpTo(step, pages, |pages|).None?
  {
    assert PagesUpTo(step, pages, i + 1).None?;
    PagesRaiseStays(step, pages, i + 1, |pages|);
  }

  /** One pass over a non-blank page whose calls succeeded: its chunks and its tags are appended. */
  lemma PageAppends(step: PageStep, pages: seq<string>, i: nat, acc: (seq<Json>, seq<Json>), page: (seq<Json>, Json))
    requires i < |pages| && !IsBlank(pages[i]) && step(i, pages[i]) == Some(page)
    requires PagesUpTo(step, pages, i) == Some(acc)
    ensures PagesUpTo(step, pages, i + 1) == Some((acc.0 + page.0, acc.1 + [page.1]))
  {
  }

  /** The page branch: a loop over the pages that skips blank ones and accumulates chunks and tags. */
  method ProcessPages(client: Client, pages: seq<string>) returns (r: Option<Processed>)
    ensures PagesUpTo(PageStepOf(client), pages, |pages|).None? ==> r.None?
    ensures PagesUpTo(PageStepOf(client), pages, |pages|).Some? ==>
      var acc := PagesUpTo(PageStepOf(client), pages, |pages|).value;
      r == Some(Processed(JArr(acc.0), JArr(acc.1)))
  {
    var allChunks: seq<Json> := [];
    var allTags: seq<Json> := [];
    for i := 0 to |pages|
      invariant PagesUpTo(PageStepOf(client), pages, i) == Some((allChunks, allTags))
    {
      var pageText := pages[i];
      if Strip(pageText) == "" {
        assert PagesUpTo(PageStepOf(client), pages, i + 1) == PagesUpTo(PageStepOf(client), pages, i);
        continue;
      }
      var page := ProcessPage(client, i, pageText);
      if page.None? {
        PageRaises(PageStepOf(client), pages, i);
        return None;
      }
      PageAppends(PageStepOf(client), pages, i, (allChunks, allTags), page.value);
      var (extension, pageTags) := page.value;
      allChunks := allChunks + extension;
      allTags := allTags + [pageTags];
    }
    r := Some(Processed(JArr(allChunks), JArr(allTags)));
  }

  /** Once every non-blank page's calls succeed, the page loop goes through. */
  lemma {:induction false} PagesGoThrough(step: PageStep, pages: seq<string>, n: nat)
    requires n <= |pages| && PagesSucceed(step, NonBlankPages(pages, n))
    ensures PagesUpTo(step, pages, n).Some?
  {
    if n > 0 {
      var prev := NonBlankPages(pages, n - 1);
      if IsBlank(pages[n - 1]) {
        assert NonBlankPages(pages, n) == prev;
      } else {
        var kept := prev + [(n - 1, pages[n - 1])];
        assert NonBlankPages(pages, n) == kept;
        assert forall j :: 0 <= j < |prev| ==> prev[j] == kept[j];
        assert kept[|prev|] == (n - 1, pages[n - 1]);
      }
      PagesGoThrough(step, pages, n - 1);
    }
  }

  /**
   * `process_document`'s dispatch: the image branch for the image kind, the
   * page branch for a list, the text branch otherwise. Base64 encoding of
   * anything but bytes raises.
   */
  function Process(client: Client, content: DocContent, kind: DocumentProcessor.Kind): (r: Option<Processed>)
    requires !(content.Bytes? && kind != DocumentProcessor.Image)
    ensures kind == DocumentProcessor.Image ==> r == if content.Bytes? then ImageBranch(client, content.bytes) else None
    ensures kind != DocumentProcessor.Image && content.Text? ==> r == TextBranch(client, content.text)
    ensures kind != DocumentProcessor.Image && content.Pages? && r.Some? ==>
      var kept := NonBlankPages(content.pages, |content.pages|);
      PagesSucceed(PageStepOf(client), kept) &&
      r.value == Processed(JArr(ChunksOf(PageStepOf(client), kept)), JArr(TagsOf(PageStepOf(client), kept)))
  {
    if kind == DocumentProcessor.Image then
      if content.Bytes? then ImageBranch(client, content.bytes) else None
    else if content.Pages? then
      match PagesUpTo(PageStepOf(client), content.pages, |content.pages|)
      case None => None
      case Some(acc) =>
        PagesInOrder(PageStepOf(client), content.pages, |content.pages|);
        Some(Processed(JArr(acc.0), JArr(acc.1)))
    else
      TextBranch(client, content.text)
  }

  /** A page list is processed whenever every non-blank page's calls succeed. */
  lemma PageBranchGoesThrough(client: Client, content: DocContent, kind: DocumentProcessor.Kind)
    requires kind != DocumentProcessor.Image && content.Pages?
    requires PagesSucceed(PageStepOf(client), NonBlankPages(content.pages, |content.pages|))
    ensures Process(client, content, kind).Some?
  {
    PagesGoThrough(PageStepOf(client), content.pages, |content.pages|);
  }

  method ProcessDocument(client: Client, content: DocContent, kind: DocumentProcessor.Kind) returns (r: Option<Processed>)
    requires !(content.Bytes? && kind != DocumentProcessor.Image)
    ensures r == Process(client, content, kind)
    ensures kind == DocumentProcessor.Image && !content.Bytes? ==> r.None?
  {
    if kind == DocumentProcessor.Image {
      if content.Bytes? {
        r := ImageBranch(client, content.bytes);
      } else {
        r := None;
      }
    } else if content.Pages? {
      r := ProcessPages(client, content.pages);
    } else {
      r := TextBranch(client, content.text);
    }
  }

  /** How the upload flow hands extracted content over. */
  function FromExtraction(content: DocumentProcessor.Content): DocContent
  {
    match content
    case Str(text) => Text(text)
    case Raw(bytes) => Bytes(bytes)
  }

  /**
   * On the upload flow, extracted content always goes to the image or the
   * text branch: the page branch is out of reach, and the unsupported-type
   * message is chunked and tagged like a document.
   */
  lemma UploadFlowBranches(client: Client, lib: DocumentProcessor.Libraries, path: string,
                           upload: Option<seq<Byte>>)
    requires DocumentProcessor.ExtractContent(lib, path, upload).Some?
    ensures var e := DocumentProcessor.ExtractContent(lib, path, upload).value;
      !(FromExtraction(e.content).Bytes? && e.kind != DocumentProcessor.Image) &&
      !FromExtraction(e.content).Pages? &&
      Process(client, FromExtraction(e.content), e.kind) ==
        if e.kind == DocumentProcessor.Image then ImageBranch(client, e.content.bytes)
        else TextBranch(client, e.content.text)
  {
  }

  lemma UnsupportedIsChunked(client: Client, lib: DocumentProcessor.Libraries, path: string,
                             upload: Option<seq<Byte>>)
    requires DocumentProcessor.Extension(path) !in DocumentProcessor.TextExtensions + DocumentProcessor.ImageExtensions
    ensures var e := DocumentProcessor.ExtractContent(lib, path, upload).value;
      Process(client, FromExtraction(e.content), e.kind) ==
        TextBranch(client, "Unsupported file type: " + DocumentProcessor.Extension(path))
  {
  }

  // ---------------------------------------------------------------------
  // Chunks of stored documents

  /** `doc.get("chunks", [])` iterated; `None` when `doc` is no dict or the value is not iterable. */
  function DocChunks(doc: Json): (r: Option<seq<Json>>)
    ensures r.Some? ==> doc.JObj?
  {
    match Get(doc, "chunks", EmptyArray)
    case None => None
    case Some(chunks) => Iterate(chunks)
  }

  /** The number of chunks of the first `n` documents. */
  function ChunkCount(docs: seq<Json>, n: nat): nat
    requires n <= |docs| && forall i :: 0 <= i < n ==> DocChunks(docs[i]).Some?
  {
    if n == 0 then 0 else ChunkCount(docs, n - 1) + |DocChunks(docs[n - 1]).value|
  }

  /** The inner loop: `f` on each of the first `n` chunks, in order, or `None` once a call raised. */
  function Collect<T>(f: Json -> Option<T>, chunks: seq<Json>, n: nat): Option<seq<T>>
    requires n <= |chunks|
  {
    if n == 0 then Some([])
    else
      match Collect(f, chunks, n - 1)
      case None => None
      case Some(es) =>
        match f(chunks[n - 1])
        case None => None
        case Some(e) => Some(es + [e])
  }

  /** One document's results: the step, specialised to the document, on each of its chunks. */
  function PerDoc<T>(step: Json -> Json -> Option<T>, doc: Json): Option<seq<T>>
  {
    match DocChunks(doc)
    case None => None
    case Some(chunks) => Collect(step(doc), chunks, |chunks|)
  }

  /** The outer loop: the results of the first `n` documents, concatenated, or `None` once one raised. */
  function ConcatDocs<T>(step: Json -> Json -> Option<T>, docs: seq<Json>, n: nat): Option<seq<T>>
    requires n <= |docs|
  {
    if n == 0 then Some([])
    else
      match ConcatDocs(step, docs, n - 1)
      case None => None
      case Some(es) =>
        match PerDoc(step, docs[n - 1])
        case None => None
        case Some(more) => Some(es + more)
  }

  lemma {:induction false} CollectRaiseStays<T>(f: Json -> Option<T>, chunks: seq<Json>, j: nat, n: nat)
    requires j <= n <= |chunks| && Collect(f, chunks, j).None?
    ensures Collect(f, chunks, n).None?
    decreases n - j
  {
    if j < n {
      assert Collect(f, chunks, j + 1).None?;
      CollectRaiseStays(f, chunks, j + 1, n);
    }
  }

  lemma {:induction false} ConcatRaiseStays<T>(step: Json -> Json -> Option<T>, docs: seq<Json>, i: nat, n: nat)
    requires i <= n <= |docs| && ConcatDocs(step, docs, i).None?
    ensures ConcatDocs(step, docs, n).None?
    decreases n - i
  {
    if i < n {
      assert ConcatDocs(step, docs, i + 1).None?;
      ConcatRaiseStays(step, docs, i + 1, n);
    }
  }

  /** A document whose chunks cannot be read or whose inner loop raised makes the outer loop raise. */
  lemma DocRaises<T>(step: Json -> Json -> Option<T>, docs: seq<Json>, i: nat)
    requires i < |docs| && PerDoc(step, docs[i]).None?
    ensures ConcatDocs(step, docs, |docs|).None?
  {
    assert ConcatDocs(step, docs, i + 1).None?;
    ConcatRaiseStays(step, docs, i + 1, |docs|);
  }

  /** The inner loop raises exactly when some call raises; otherwise entry `j` is what the call on chunk `j` gave. */
  lemma {:induction false} CollectSpec<T>(f: Json -> Option<T>, chunks: seq<Json>, n: nat)
    requires n <= |chunks|
    ensures Collect(f, chunks, n).Some? <==> forall j :: 0 <= j < n ==> f(chunks[j]).Some?
    ensures Collect(f, chunks, n).Some? ==>
      |Collect(f, chunks, n).value| == n &&
      forall j :: 0 <= j < n ==> f(chunks[j]) == Some(Collect(f, chunks, n).value[j])
  {
    if n > 0 {
      CollectSpec(f, chunks, n - 1);
      var prev := Collect(f, chunks, n - 1);
      if prev.Some? && f(chunks[n - 1]).Some? {
        var es := prev.value + [f(chunks[n - 1]).value];
        assert Collect(f, chunks, n) == Some(es);
        assert forall j :: 0 <= j < n - 1 ==> es[j] == prev.value[j];
      }
    }
  }

  /**
   * A document's results exist exactly when its chunks can be read and the
   * step succeeds on each; there is then one result per chunk, in order.
   */
  lemma PerDocSpec<T>(step: Json -> Json -> Option<T>, doc: Json)
    ensures PerDoc(step, doc).Some? <==>
      DocChunks(doc).Some? && forall j :: 0 <= j < |DocChunks(doc).value| ==> step(doc)(DocChunks(doc).value[j]).Some?
    ensures PerDoc(step, doc).Some? ==>
      var chunks := DocChunks(doc).value;
      |PerDoc(step, doc).value| == |chunks| &&
      forall j :: 0 <= j < |chunks| ==> step(doc)(chunks[j]) == Some(PerDoc(step, doc).value[j])
  {
    if DocChunks(doc).Some? {
      var chunks := DocChunks(doc).value;
      CollectSpec(step(doc), chunks, |chunks|);
    }
  }

  /** The outer loop raises exactly when some document's results raise. */
  lemma {:induction false} ConcatSpec<T>(step: Json -> Json -> Option<T>, docs: seq<Json>, n: nat)
    requires n <= |docs|
    ensures ConcatDocs(step, docs, n).Some? <==> forall i :: 0 <= i < n ==> PerDoc(step, docs[i]).Some?
  {
    if n > 0 {
      ConcatSpec(step, docs, n - 1);
      if ConcatDocs(step, docs, n - 1).None? {
        var i :| 0 <= i < n - 1 && PerDoc(step, docs[i]).None?;
        assert ConcatDocs(step, docs, n).None?;
      } else if PerDoc(step, docs[n - 1]).None? {
        assert ConcatDocs(step, docs, n).None?;
      } else {
        assert ConcatDocs(step, docs, n).Some?;
      }
    }
  }

  /** When the outer loop does not raise, it holds one result per chunk, document by document. */
  lemma {:induction false} ConcatLength<T>(step: Json -> Json -> Option<T>, docs: seq<Json>, n: nat)
    requires n <= |docs| && ConcatDocs(step, docs, n).Some?
    ensures forall i :: 0 <= i < n ==> DocChunks(docs[i]).Some?
    ensures |ConcatDocs(step, docs, n).value| == ChunkCount(docs, n)
  {
    if n > 0 {
      var prev := ConcatDocs(step, docs, n - 1);
      var part := PerDoc(step, docs[n - 1]);
      assert prev.Some? && part.Some?;
      ConcatLength(step, docs, n - 1);
      assert ConcatDocs(step, docs, n).value == prev.value + part.value;
      PerDocSpec(step, docs[n - 1]);
    }
  }

  /** One pass of the outer loop: the document's results are appended. */
  lemma ConcatStep<T>(step: Json -> Json -> Option<T>, docs: seq<Json>, i: nat, prefix: seq<T>, part: seq<T>)
    requires i < |docs| && ConcatDocs(step, docs, i) == Some(prefix) && PerDoc(step, docs[i]) == Some(part)
    ensures ConcatDocs(step, docs, i + 1) == Some(prefix + part)
  {
  }

  /** The inner loop of `search_content` and of `_prepare_content_summary`: one result per chunk, appended in order. */
  method CollectLoop<T>(f: Json -> Option<T>, chunks: seq<Json>) returns (r: Option<seq<T>>)
    ensures r == Collect(f, chunks, |chunks|)
  {
    var entries: seq<T> := [];
    for j := 0 to |chunks|
      invariant Collect(f, chunks, j) == Some(entries)
    {
      var entry := f(chunks[j]);
      if entry.None? {
        CollectRaiseStays(f, chunks, j + 1, |chunks|);
        return None;
      }
      entries := entries + [entry.value];
    }
    r := Some(entries);
  }

  /** The outer loop of both: each document's `chunks` read, then the inner loop, its results appended. */
  method ConcatLoop<T>(step: Json -> Json -> Option<T>, docs: seq<Json>) returns (r: Option<seq<T>>)
    ensures r == ConcatDocs(step, docs, |docs|)
  {
    var all: seq<T> := [];
    for i := 0 to |docs|
      invariant ConcatDocs(step, docs, i) == Some(all)
    {
      var chunks := DocChunks(docs[i]);
      if chunks.None? {
        DocRaises(step, docs, i);
        return None;
      }
      var part := CollectLoop(step(docs[i]), chunks.value);
      if part.None? {
        DocRaises(step, docs, i);
        return None;
      }
      ConcatStep(step, docs, i, all, part.value);
      all := all + part.value;
    }
    r := Some(all);
  }

  // ----- search_content

  const ContextSeparator := "\n---\n"

  /**
   * One context entry: the document's source and tags and the chunk's text,
   * each with its default; `None` where `chunk.get` raises on a non-dict.
   */
  function Entry(client: Client, doc: Json, chunk: Json): (r: Option<string>)
    ensures r.Some? <==> chunk.JObj?
    ensures r.Some? && doc.JObj? ==>
      r.value ==
        "Source: " + Format(Lookup(doc.fields, "filename").GetOr(JStr("")), client.show) +
        "\nTags: " + client.dumps(Lookup(doc.fields, "tags").GetOr(EmptyObject)) +
        "\nContent: " + Format(Lookup(chunk.fields, "text").GetOr(JStr("")), client.show) + "\n"
  {
    var source := Get(doc, "filename", JStr("")).GetOr(JStr(""));
    var tags := Get(doc, "tags", EmptyObject).GetOr(EmptyObject);
    match Get(chunk, "text", JStr(""))
    case None => None
    case Some(text) =>
      Some("Source: " + Format(source, client.show) + "\nTags: " + client.dumps(tags) +
           "\nContent: " + Format(text, client.show) + "\n")
  }

  /** Whatever the document, an entry ends with the chunk's text (default `''`) after `"\nContent: "`. */
  lemma EntryEndsWithText(client: Client, doc: Json, chunk: Json)
    requires chunk.JObj?
    ensures Contains(Entry(client, doc, chunk).value,
                     "\nContent: " + Format(Lookup(chunk.fields, "text").GetOr(JStr("")), client.show) + "\n")
  {
    var source := Get(doc, "filename", JStr("")).GetOr(JStr(""));
    var tags := Get(doc, "tags", EmptyObject).GetOr(EmptyObject);
    var head := "Source: " + Format(source, client.show) + "\nTags: " + client.dumps(tags);
    var tail := "\nContent: " + Format(Lookup(chunk.fields, "text").GetOr(JStr("")), client.show) + "\n";
    assert Entry(client, doc, chunk).value == head + tail + "";
    ContainsSelf(tail);
    ContainsExtend(tail, tail, head, "");
  }

  function EntryStep(client: Client): Json -> Json -> Option<string>
  {
    doc => chunk => Entry(client, doc, chunk)
  }

  /** The question put to the model, with all context inlined. */
  function SearchPrompt(query: string, context: string): string
  {
    "You are an educational content assistant. " +
    "Use the following content to answer the user's question. " +
    "Reference specific sources if possible.\n\n" +
    "User question: " + query + "\n\n" +
    "Available content:\n" + context
  }

  datatype SearchReply = SearchReply(query: string, reply: string)

  /** What `search_content` returns: the query and the model's answer to the prompt built from every entry. */
  function Search(client: Client, query: string, docs: seq<Json>): (r: Option<SearchReply>)
    ensures r.Some? ==> r.value.query == query
    ensures ConcatDocs(EntryStep(client), docs, |docs|).None? ==> r.None?
    ensures r.Some? ==>
      var context := Join(ContextSeparator, ConcatDocs(EntryStep(client), docs, |docs|).value);
      client.chat(Request(AssistantInstructions, SearchPrompt(query, context))) == Some(r.value.reply)
  {
    match ConcatDocs(EntryStep(client), docs, |docs|)
    case None => None
    case Some(entries) =>
      match client.chat(Request(AssistantInstructions, SearchPrompt(query, Join(ContextSeparator, entries))))
      case None => None
      case Some(reply) => Some(SearchReply(query, reply))
  }

  /** When the context builds and the model replies, `search_content` answers with that reply. */
  lemma SearchAnswersWhenAllSucceed(client: Client, query: string, docs: seq<Json>)
    requires ConcatDocs(EntryStep(client), docs, |docs|).Some?
    requires client.chat(Request(AssistantInstructions,
      SearchPrompt(query, Join(ContextSeparator, ConcatDocs(EntryStep(client), docs, |docs|).value)))).Some?
    ensures Search(client, query, docs) == Some(SearchReply(query, client.chat(Request(AssistantInstructions,
      SearchPrompt(query, Join(ContextSeparator, ConcatDocs(EntryStep(client), docs, |docs|).value)))).value))
  {
  }

  /** `search_content`: every chunk of every document into one context, then one model call. */
  method SearchContent(client: Client, query: string, docs: seq<Json>) returns (r: Option<SearchReply>)
    ensures r == Search(client, query, docs)
    ensures r.Some? ==> r.value.query == query
  {
    var contextChunks := ConcatLoop(EntryStep(client), docs);
    if contextChunks.None? {
      return None;
    }
    var context := Join(ContextSeparator, contextChunks.value);
    var reply := client.chat(Request(AssistantInstructions, SearchPrompt(query, context)));
    if reply.None? {
      return None;
    }
    r := Some(SearchReply(query, reply.value));
  }

  /** With no stored documents the model is asked with an empty context. */
  lemma SearchWithoutDocuments(client: Client, query: string)
    ensures Search(client, query, []) ==
      match client.chat(Request(AssistantInstructions, SearchPrompt(query, "")))
      case None => None
      case Some(reply) => Some(SearchReply(query, reply))
  {
  }

  /**
   * Search raises before the model call exactly when some document's chunks
   * cannot be read or one of its chunks is no dict; otherwise the context has
   * one entry per chunk, document by document.
   */
  lemma EntriesPerChunk(client: Client, docs: seq<Json>)
    ensures ConcatDocs(EntryStep(client), docs, |docs|).Some? <==>
      forall i :: 0 <= i < |docs| ==>
        DocChunks(docs[i]).Some? && forall c :: c in DocChunks(docs[i]).value ==> c.JObj?
    ensures ConcatDocs(EntryStep(client), docs, |docs|).Some? ==>
      |ConcatDocs(EntryStep(client), docs, |docs|).value| == ChunkCount(docs, |docs|)
  {
    var step := EntryStep(client);
    ConcatSpec(step, docs, |docs|);
    if ConcatDocs(step, docs, |docs|).Some? {
      ConcatLength(step, docs, |docs|);
    }
    forall i | 0 <= i < |docs|
      ensures PerDoc(step, docs[i]).Some? <==>
        DocChunks(docs[i]).Some? && forall c :: c in DocChunks(docs[i]).value ==> c.JObj?
    {
      PerDocSpec(step, docs[i]);
      if DocChunks(docs[i]).Some? {
        var chunks := DocChunks(docs[i]).value;
        if !forall c :: c in chunks ==> c.JObj? {
          var j :| 0 <= j < |chunks| && !chunks[j].JObj?;
          assert step(docs[i])(chunks[j]).None?;
        }
      }
    }
  }

  /** The context has no size bound: it holds every entry in full plus one separator between neighbours. */
  lemma ContextLength(entries: seq<string>)
    requires entries != []
    ensures |Join(ContextSeparator, entries)| == TotalLength(entries) + 5 * (|entries| - 1)
  {
    JoinLength(ContextSeparator, entries);
  }

  // ----- _prepare_content_summary

  datatype SummaryEntry = SummaryEntry(id: string, summary: Json, context: Json)

  /** One summary entry; `doc['filename']` raises `KeyError` when the key is missing. */
  function SummaryOf(client: Client, doc: Json, chunk: Json): (r: Option<SummaryEntry>)
    ensures r.Some? <==> Subscript(doc, "filename").Some? && chunk.JObj?
    ensures r.Some? ==>
      r.value.id == Format(Subscript(doc, "filename").value, client.show) + "_" +
                    Format(Lookup(chunk.fields, "id").GetOr(JStr("")), client.show)
    ensures r.Some? ==>
      r.value.summary == Lookup(chunk.fields, "summary").GetOr(JStr("")) &&
      r.value.context == Lookup(chunk.fields, "context").GetOr(JStr(""))
  {
    match Subscript(doc, "filename")
    case None => None
    case Some(filename) =>
      match Get(chunk, "id", JStr(""))
      case None => None
      case Some(id) =>
        Some(SummaryEntry(Format(filename, client.show) + "_" + Format(id, client.show),
                          Get(chunk, "summary", JStr("")).value,
                          Get(chunk, "context", JStr("")).value))
  }

  function SummaryStep(client: Client): Json -> Json -> Option<SummaryEntry>
  {
    doc => chunk => SummaryOf(client, doc, chunk)
  }

  /**
   * `_prepare_content_summary` up to its final `json.dumps`: one entry per
   * chunk, in document-then-chunk order.
   */
  method PrepareContentSummary(client: Client, docs: seq<Json>) returns (r: Option<seq<SummaryEntry>>)
    ensures r == ConcatDocs(SummaryStep(client), docs, |docs|)
  {
    r := ConcatLoop(SummaryStep(client), docs);
  }

  /** Entry `j` of a document's summary is chunk `j`'s, its id the filename and the chunk's id (default empty) joined by '_'. */
  lemma SummaryIds(client: Client, doc: Json)
    requires PerDoc(SummaryStep(client), doc).Some?
    ensures var chunks := DocChunks(doc).value; var es := PerDoc(SummaryStep(client), doc).value;
      |es| == |chunks| &&
      forall j :: 0 <= j < |chunks| ==>
        chunks[j].JObj? &&
        es[j].id == Format(Subscript(doc, "filename").value, client.show) + "_" +
                    Format(Lookup(chunks[j].fields, "id").GetOr(JStr("")), client.show) &&
        es[j].summary == Lookup(chunks[j].fields, "summary").GetOr(JStr("")) &&
        es[j].context == Lookup(chunks[j].fields, "context").GetOr(JStr(""))
  {
    var step := SummaryStep(client);
    PerDocSpec(step, doc);
    var chunks := DocChunks(doc).value;
    var es := PerDoc(step, doc).value;
    forall j | 0 <= j < |chunks| ensures SummaryOf(client, doc, chunks[j]) == Some(es[j]) {
      assert step(doc)(chunks[j]) == Some(es[j]);
    }
  }

  /** A document without chunks never raises for a missing filename: only documents with chunks are indexed. */
  lemma ChunklessDocNeverIndexed(client: Client, doc: Json)
    requires DocChunks(doc) == Some([])
    ensures PerDoc(SummaryStep(client), doc) == Some([])
  {
  }

  /** A document with a chunk but no filename makes the summary raise. */
  lemma MissingFilenameRaises(client: Client, doc: Json)
    requires Subscript(doc, "filename").None?
    requires DocChunks(doc).Some? && DocChunks(doc).value != []
    ensures PerDoc(SummaryStep(client), doc).None?
  {
    var step := SummaryStep(client);
    PerDocSpec(step, doc);
    assert step(doc)(DocChunks(doc).value[0]).None?;
  }
}
