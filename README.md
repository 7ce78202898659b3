# head-n-heart-gpt backend, modelled in Dafny

The backend of head-n-heart-gpt takes an uploaded educational document and
extracts its text: PDF pages, Word paragraphs or plain text, while images
pass through as bytes. It has a language model cut the text into chunks and
tag them, then stores the original and the processed record in a cloud
bucket. It can also answer a question, either from every stored chunk or
from the matches of a vector index. This project models the deterministic
logic around the external calls, one Dafny module per service:

- `DocumentProcessor` (`document_processor.dfy`) covers three things:
  - the choice of content kind by lower-cased extension;
  - the shape of the PDF and Word joins;
  - the greedy, paragraph-based, overlapping chunker. It is a `method` with
    a loop, proved against a fold over the paragraphs.
- `AutoTagger` (`auto_tagger.dfy`) covers:
  - the fixed four-category taxonomy;
  - the tag validator. It is a `method` filling the validated map
    category by category, proved against a recursive definition;
  - the fallback tags, the head/middle/tail sample, and the try/except split
    of `tag_document`.
- `OpenAIService` (`openai_service.dfy`) covers:
  - the image branch's `{ … }` slice and its parse fallbacks;
  - the page loop, which skips blank pages;
  - prompt truncation, `_parse_chunks` and `_parse_tags`;
  - `search_content` and `_prepare_content_summary`. Both are nested loops
    over documents and their chunks, written as two generic loop methods.
- `PineconeService` (`pinecone_service.dfy`) covers `upsert_chunks`, whose
  index is a map from vector id to embedding and metadata, and the filter
  that `query` builds.
- `QueryEngine` (`query_engine.dfy`) covers the empty-result short circuit,
  the numbered and truncated prompt material, the `relevant_chunks` entries
  and the fixed-length preview.
- `StorageService` (`storage_service.dfy`) is a class over a map from
  object key to bytes. It models the `documents/` and `processed/…json` key
  scheme, the `gs://` URIs and the lossy `replace` in the listings.

Helper modules:
- `PyText` (`py_text.dfy`) holds the Python string semantics the services
  rely on: `isspace`, `strip`, `split`, `join`, `find`/`rfind`, `replace`
  with an empty replacement, negative slices, `lower` and `str(int)`.
- `Json` (`json.dfy`) holds a JSON value whose objects are ordered lists of
  key/value pairs, together with `dict.get`, `d[k]`, iteration and f-string
  formatting.
- `Wrappers` (`wrappers.dfy`) holds `Option`.

Every external call is a function-typed parameter:
- the chat and vision models;
- `json.loads` and `json.dumps`;
- the PDF and Word libraries, and file reads;
- the vector store's search;
- Python's `str()` of a non-string value.

`None` from such a function stands for the exception it raises. Where the
source lets an exception propagate, the modelled operation returns `None`.
Where the source catches it, the model takes the fallback the source takes.
One case is not represented: a chat reply whose content is `None`. The
model treats it as a failed call, while several callers in the source
proceed with it (see "## Left out").

The bucket is not a parameter: `StorageService.StorageService` holds it as
a map from key to bytes, and its method `ListBlobs` lists the keys.

Where the code's own comments and prompts promise more than the code does,
the model follows the code:
- `process_document`'s docstring and its `# PDF: list of page texts`
  comment (backend/openai_service.py:15, :52) expect PDFs to arrive as a
  list of pages. PDF extraction returns one joined string of kind text
  instead. The page-list branch is modelled as written but is unreachable
  from the upload flow (`OpenAIService.UploadFlowBranches`).
- The tagging prompt (backend/openai_service.py:100-132) names 16
  competencies and asks for at most 5. `_parse_tags` returns whatever JSON
  came back, and no member checks it against those 16 or caps its length.
- `upsert_chunks` stores metadata under `chunkText` and `filename`, but the
  query engine reads `text` and `source`. The query engine is handed its
  vector store from outside, and nothing in the source wires it to the
  index `upsert_chunks` writes. When both do use the same index, a match
  stored by `upsert_chunks` previews as `"..."` from `"Unknown"`
  (`QueryEngine.StoredMetadataReadsBlank`).

## Model

| member | source | states |
|---|---|---|
| PyText.Strip | backend/document_processor.py:66 | `strip()` gives a string with no whitespace at either end, no longer than the input, and empty exactly when the input is blank |
| PyText.StripFrame | backend/document_processor.py:71 | `strip()` is a slice of the input with only whitespace outside it |
| PyText.StripOf | backend/document_processor.py:78-79 | stripping whitespace-padded text that is already stripped gives that text back |
| PyText.StripIdempotent | backend/document_processor.py:78-79 | stripping twice is stripping once |
| PyText.StripBlankSuffix | backend/document_processor.py:75 | appending whitespace (the `"\n\n"` after a paragraph) does not change the stripped buffer |
| PyText.StripKeepsPiece | backend/document_processor.py:71 | a non-blank piece of a buffer survives stripping, in stripped form |
| PyText.JoinSplit | backend/document_processor.py:60 | joining the pieces of `split(sep)` with `sep` gives the text back |
| PyText.SplitPiecesLackSeparator | backend/document_processor.py:60 | no piece of `split(sep)` contains `sep` |
| PyText.SplitBlank | backend/document_processor.py:60-67 | every paragraph of a blank text is blank |
| PyText.LastPieceOfSplit | backend/document_processor.py:13 | `split('.')[-1]` is the text after the last separator; there is one piece exactly when the separator is absent |
| PyText.LastPieceStart | backend/document_processor.py:13 | the last piece is a suffix that starts the text or follows a separator |
| PyText.JoinLength | backend/openai_service.py:148 | a join is as long as its parts plus one separator between each two |
| PyText.JoinSnoc | backend/document_processor.py:43 | joining one more part appends the separator and the part |
| PyText.Find | backend/openai_service.py:40 | `find` gives the first occurrence, or -1 when there is none |
| PyText.RFind | backend/openai_service.py:41 | `rfind` gives the last occurrence, or -1 when there is none |
| PyText.FindChar | backend/openai_service.py:40 | `find('{')` is the index of the first `{`, with no `{` before it |
| PyText.RFindChar | backend/openai_service.py:41 | `rfind('}')` is the index of the last `}`, with no `}` after it |
| PyText.FindContains | backend/openai_service.py:40 | `find` succeeds exactly when `t in s` |
| PyText.RemoveAll | backend/storage_service.py:74 | `replace(pat, "")` never lengthens a string, and shortens it by at least one pattern when the pattern occurs |
| PyText.RemoveAllAbsent | backend/storage_service.py:79 | `replace` leaves a string without the pattern unchanged |
| PyText.RemoveAllUnchanged | backend/storage_service.py:79 | `replace(pat, "")` is the identity on a string exactly when the pattern does not occur in it |
| PyText.RemoveAllLeading | backend/storage_service.py:74 | a leading copy of the pattern is removed and the rest is processed alone |
| PyText.RemoveAllTrailing | backend/storage_service.py:79 | a trailing copy of a border-free pattern such as `.json` is removed and the rest is processed alone |
| PyText.RemoveAllKeepsTail | backend/storage_service.py:79 | a tail that lacks the pattern's last character passes through `replace` unchanged |
| PyText.Slice | backend/auto_tagger.py:50 | `s[a:b]` with Python's clamping of negative and out-of-range bounds |
| PyText.Take | backend/auto_tagger.py:48 | `s[:n]` is the first `min(n, len)` elements |
| PyText.TakeLast | backend/auto_tagger.py:51 | `s[-n:]` is the last `min(n, len)` elements, and `s[-0:]` is the whole of `s` |
| PyText.Lower | backend/document_processor.py:13 | `lower()` keeps the length and maps each character to lower case |
| PyText.NatToString | backend/pinecone_service.py:86 | `str(i)` is a non-empty digit string whose decimal value is `i` |
| PyText.NatToStringInjective | backend/pinecone_service.py:86 | distinct indices print differently |
| Json.Lookup | backend/pinecone_service.py:86 | key lookup finds a value exactly when the key is present, and the value is bound to it |
| Json.Get | backend/pinecone_service.py:86-88 | `d.get(k, default)` raises exactly on a non-dict. On a dict it gives the value bound to the key, or the default when the key is missing |
| Json.Subscript | backend/openai_service.py:191 | `d[k]` succeeds exactly on a dict holding the key |
| Json.Iterate | backend/openai_service.py:74 | iterating a list gives its items, a string its characters and a dict its keys; anything else raises |
| Json.Format | backend/openai_service.py:146 | a string is formatted as itself in an f-string |
| DocumentProcessor.Extension | backend/document_processor.py:13 | the extension is the lower-cased text after the last `.`, contains no `.`, and is the whole path when the path has no `.` |
| DocumentProcessor.AfterLastDot | backend/document_processor.py:13 | `split('.')[-1]` is the dot-free suffix after the last `.` |
| DocumentProcessor.PdfTextJoin | backend/document_processor.py:33-38 | PDF text is each page followed by `"\n"`, in page order: the pages joined by `"\n"` plus a final `"\n"`, and empty for no pages |
| DocumentProcessor.ExtractFromPdf | backend/document_processor.py:31-38 | the page loop accumulates exactly that text |
| DocumentProcessor.ExtractContent | backend/document_processor.py:9-29 | `pdf`/`doc`/`docx`/`txt` give kind text, and `jpg`/`jpeg`/`png` give kind image with the uploaded bytes unchanged. Any other extension gives `("Unsupported file type: <ext>", unsupported)`. PDF and Word text have the join shapes above. A `txt` file is the text read, and an image with no uploaded bytes is the bytes read from disk. For `pdf`, `doc`/`docx`, `txt` and a disk image, the extraction raises exactly when its library call or read raises |
| DocumentProcessor.Carry | backend/document_processor.py:73 | after a flush the buffer restarts with the last `min(overlap, len)` characters of the unstripped buffer, or empty when `overlap <= 0` |
| DocumentProcessor.ChunkDocument | backend/document_processor.py:57-81 | the buffer loop computes the paragraph fold. Every chunk is non-empty and equal to its own `strip()`. Blank text gives no chunk, and a non-blank text of at most `chunk_size` characters gives exactly one |
| DocumentProcessor.StepGood | backend/document_processor.py:70-75 | one paragraph step keeps every emitted chunk non-empty and stripped |
| DocumentProcessor.FoldGood | backend/document_processor.py:64-75 | the paragraph loop keeps every emitted chunk non-empty and stripped |
| DocumentProcessor.ChunksWellFormed | backend/document_processor.py:70-79 | every chunk is non-empty and equal to its own `strip()` |
| DocumentProcessor.FoldBlank | backend/document_processor.py:66-67 | blank paragraphs are skipped and change nothing |
| DocumentProcessor.ChunksOfBlankText | backend/document_processor.py:60-81 | empty or whitespace-only text gives an empty list |
| DocumentProcessor.FoldCurrentNonBlank | backend/document_processor.py:75 | once a non-blank paragraph has been read, the buffer is not blank |
| DocumentProcessor.FoldNoFlush | backend/document_processor.py:70 | no flush happens while the buffer and the remaining paragraphs fit in `chunk_size` |
| DocumentProcessor.ShortTextOneChunk | backend/document_processor.py:70-79 | a non-blank text of at most `chunk_size` characters yields exactly one chunk |
| DocumentProcessor.StepTracks | backend/document_processor.py:70-75 | a step keeps every paragraph read so far in an emitted chunk or in the buffer |
| DocumentProcessor.FoldTracks | backend/document_processor.py:64-75 | the loop keeps every non-blank paragraph in an emitted chunk or in the buffer |
| DocumentProcessor.NoParagraphDropped | backend/document_processor.py:64-81 | every non-blank paragraph, stripped, occurs in some chunk |
| DocumentProcessor.FlushedSized | backend/document_processor.py:71 | a flushed buffer is at most `chunk_size` long or is one over-long paragraph |
| DocumentProcessor.StepSized | backend/document_processor.py:70-75 | with `overlap <= 0` a step keeps that size bound on the buffer and on every chunk |
| DocumentProcessor.FoldSized | backend/document_processor.py:64-75 | the loop keeps that size bound |
| DocumentProcessor.ChunkSizeWithoutOverlap | backend/document_processor.py:70-79 | with `overlap <= 0`, every chunk is at most `chunk_size` long or is a single over-long paragraph, stripped |
| DocumentProcessor.FoldAppend | backend/document_processor.py:64 | reading two runs of paragraphs is reading the first, then the second |
| DocumentProcessor.FoldKeepsChunks | backend/document_processor.py:71 | emitted chunks are only ever appended to |
| DocumentProcessor.StepLong | backend/document_processor.py:70-75 | with `overlap <= 0`, a paragraph longer than `chunk_size` leaves the buffer holding only itself |
| DocumentProcessor.LongBufferEmitted | backend/document_processor.py:70-79 | a buffer holding one over-long paragraph is emitted as that paragraph, stripped |
| DocumentProcessor.LongParagraphAlone | backend/document_processor.py:70-79 | with `overlap <= 0`, a paragraph longer than `chunk_size` becomes a chunk on its own |
| AutoTagger.TaxonomyShape | backend/auto_tagger.py:7-12 | the taxonomy `TagStructure` has the four categories Action, Relationships, Discipline and Purpose, with 9, 9, 11 and 9 distinct labels |
| AutoTagger.PyIn | backend/auto_tagger.py:73 | `category in tags` answers for a dict, a list or a string, and raises otherwise |
| AutoTagger.FilterAllowed | backend/auto_tagger.py:75 | a tag is in the result exactly when it is an allowed string of the input, and the result is no longer than the input. Order and repeats are not in the contract. They follow the comprehension in the body, and `AutoTagger.FilterKeepsAllowed` shows an all-allowed list passing unchanged |
| AutoTagger.FilterKeepsAllowed | backend/auto_tagger.py:75 | a list of allowed tags passes unchanged, with order and duplicates kept and no length cap |
| AutoTagger.CategoryTags | backend/auto_tagger.py:73-83 | a category's result is a non-empty list of allowed labels |
| AutoTagger.ValidateTags | backend/auto_tagger.py:68-85 | the category loop computes the validated map. Its keys are exactly the category names, so extra keys are dropped. A dict input never raises |
| AutoTagger.ValidatedRaises | backend/auto_tagger.py:72-83 | validation raises exactly when some category's check raises |
| AutoTagger.ValidatedKeys | backend/auto_tagger.py:70-85 | the validated keys are the category names |
| AutoTagger.ValidatedValues | backend/auto_tagger.py:72-83 | each category's value is that category's own result |
| AutoTagger.ValidatedSpec | backend/auto_tagger.py:68-85 | the three facts above together |
| AutoTagger.ValidatedWellFormed | backend/auto_tagger.py:75-83 | every validated list is non-empty, and every element is an exact member of its category's labels |
| AutoTagger.ValidatedAt | backend/auto_tagger.py:72-83 | category `k`'s entry is category `k`'s result |
| AutoTagger.DictNeverRaises | backend/auto_tagger.py:73 | a dict input always validates |
| AutoTagger.ValidatedCategory | backend/auto_tagger.py:73-83 | a list with an allowed tag gives that list filtered, with order and duplicates kept. A missing category, a non-list value or a list with no allowed tag gives `[values[0]]` |
| AutoTagger.FallbackOf | backend/auto_tagger.py:87-89 | the fallback maps every category to its first label |
| AutoTagger.FallbackTags | backend/auto_tagger.py:87-89 | the fallback ignores the filename, has exactly the four categories, and holds each category's first label |
| AutoTagger.FallbackIsValidatedEmpty | backend/auto_tagger.py:87-89 | the fallback equals `_validate_tags({})` |
| AutoTagger.CategoryOffDict | backend/auto_tagger.py:73 | on a non-dict, a category raises unless `category in tags` is False, in which case it gets its first label |
| AutoTagger.NonDictRaises | backend/auto_tagger.py:72-83 | a non-dict raises exactly when some category name's `in` test does not give False |
| AutoTagger.NonDictFallback | backend/auto_tagger.py:72-83 | a non-dict that does not raise validates to the fallback |
| AutoTagger.NonDictInput | backend/auto_tagger.py:73 | a list raises exactly when it holds a category name, and a string exactly when a category name occurs in it. Any other non-dict raises. A non-dict that does not raise gives the fallback |
| AutoTagger.ValidateIdempotent | backend/auto_tagger.py:68-85 | validating an already validated map returns it unchanged |
| AutoTagger.SampleOfShortText | backend/auto_tagger.py:43-44 | a text no longer than the limit is its own sample |
| AutoTagger.SampleOfLongText | backend/auto_tagger.py:46-53 | a longer text gives its first third, the third starting at `len//2 - third//2`, and its last third, separated by `"\n\n[...]\n\n"`. The total length is `3*(max_length//3)+18` |
| AutoTagger.SampleOfTinyLimit | backend/auto_tagger.py:46-53 | below a limit of 3 the third is 0, and `text[-0:]` makes the tail the whole text |
| AutoTagger.ExtractSample | backend/auto_tagger.py:41-53 | a text within the limit is its own sample. A longer one (limit at least 3) has length `3*(max_length//3)+18`. Its head, middle and tail are stated by `AutoTagger.SampleOfLongText` |
| AutoTagger.TagDocument | backend/auto_tagger.py:14-39 | the tags always have the four categories. A failed model call, a reply `json.loads` rejects, or a validation that raises gives the fallback tags. Otherwise the result is the validated parse of the reply to the 2000-character sample |
| AutoTagger.TagDocumentInTaxonomy | backend/auto_tagger.py:14-39 | whether the call succeeds or not, every category holds a non-empty list of its own labels |
| OpenAIService.ParseChunks | backend/openai_service.py:171-176 | the result is the parsed object's `"chunks"` (default `[]`), or `[]` for malformed or non-object JSON |
| OpenAIService.ParseTags | backend/openai_service.py:178-183 | the parsed JSON is returned unfiltered, or `{}` when it is malformed |
| OpenAIService.JsonSliceSpec | backend/openai_service.py:39-43 | a slice exists exactly when some `{` precedes some `}`. It runs from the first `{` to the last `}` of the reply |
| OpenAIService.ImageBranch | backend/openai_service.py:16-51 | the image branch fails only with the vision call, and gives `([], {})` when the reply has no slice |
| OpenAIService.ImageBranchParse | backend/openai_service.py:44-51 | a slice that does not parse to a dict gives `([], {})`. A dict gives its `chunks` (default `[]`) and `tags` (default `{}`) |
| OpenAIService.ChunkMessage | backend/openai_service.py:93 | the chunking prompt carries at most 10000 characters of the text |
| OpenAIService.TagMessage | backend/openai_service.py:133 | the tagging prompt carries at most 5000 characters of the text |
| OpenAIService.TextBranch | backend/openai_service.py:77-137 | the text branch succeeds exactly when both model calls do. It returns the parsed chunks of the first reply and the parsed tags of the second |
| OpenAIService.TextBranchSeesPrefix | backend/openai_service.py:93 | texts that agree on their first 10000 characters are processed alike |
| OpenAIService.PagesRaiseStays | backend/openai_service.py:55-75 | once a page raises, the page loop has raised |
| OpenAIService.NonBlankPages | backend/openai_service.py:55-57 | every kept page is a non-blank page at its own position |
| OpenAIService.NonBlankPagesExact | backend/openai_service.py:55-57 | every non-blank page is kept, and the kept pages are in strictly increasing page order |
| OpenAIService.TagsOf | backend/openai_service.py:75 | one tags entry per kept page, in page order |
| OpenAIService.PagesInOrder | backend/openai_service.py:52-76 | the page loop skips blank pages, concatenates the kept pages' chunk lists in page order, and appends one tags entry per non-blank page |
| OpenAIService.PagesGoThrough | backend/openai_service.py:55-76 | the page loop goes through whenever every non-blank page's calls succeed |
| OpenAIService.PagesAppend | backend/openai_service.py:74-75 | one more page extends the chunks by its list and the tags by one entry |
| OpenAIService.BlankPagesGiveNothing | backend/openai_service.py:56-57 | a list of blank pages gives `([], [])` |
| OpenAIService.PageMessage | backend/openai_service.py:62 | a page's message starts with `Here's page `, carries the page number counted from 1, and ends with the whole page, untruncated |
| OpenAIService.ProcessPage | backend/openai_service.py:58-73 | one page's two model calls, parsed |
| OpenAIService.ProcessPages | backend/openai_service.py:52-76 | the page loop returns the accumulated chunks and tags, and raises when a page does |
| OpenAIService.Process | backend/openai_service.py:14-137 | the image kind goes to the image branch, and raises without bytes. Text goes to the text branch. A page list that succeeds gives the concatenated chunks and the tags entries of exactly the non-blank pages, in page order |
| OpenAIService.PageBranchGoesThrough | backend/openai_service.py:52-76 | a page list is processed whenever every non-blank page's calls succeed |
| OpenAIService.ProcessDocument | backend/openai_service.py:14-137 | the method computes that dispatch. The image kind without bytes raises |
| OpenAIService.UploadFlowBranches | backend/app.py:52-55 | extracted content reaches only the image or the text branch, never the page loop |
| OpenAIService.UnsupportedIsChunked | backend/app.py:52-55 | an unsupported file's message is chunked and tagged like a document |
| OpenAIService.DocChunks | backend/openai_service.py:144 | `doc.get("chunks", [])` needs a dict |
| OpenAIService.CollectSpec | backend/openai_service.py:144-147 | the chunk loop succeeds exactly when every chunk does, and yields one result per chunk, in order |
| OpenAIService.PerDocSpec | backend/openai_service.py:144-147 | a document yields one result per chunk, in chunk order |
| OpenAIService.ConcatSpec | backend/openai_service.py:143-147 | the document loop succeeds exactly when every document does |
| OpenAIService.ConcatLength | backend/openai_service.py:143-147 | the document loop yields as many results as there are chunks in all documents |
| OpenAIService.CollectLoop | backend/openai_service.py:144-147 | the inner loop computes the chunk results in order |
| OpenAIService.ConcatLoop | backend/openai_service.py:143-147 | the nested loop computes the results in document-then-chunk order |
| OpenAIService.Entry | backend/openai_service.py:146 | an entry exists exactly for a dict chunk. For a dict document it is `Source: <filename or ''>`, `Tags: <json.dumps of tags or {}>` and `Content: <text or ''>`, each on its own line, with a final newline |
| OpenAIService.EntryEndsWithText | backend/openai_service.py:146 | whatever the document, the entry carries the chunk's text (default `''`) after `"\nContent: "` |
| OpenAIService.Search | backend/openai_service.py:139-169 | `search_content` raises when the context cannot be built. A reply is the model's answer to the prompt built from the joined entries, and echoes the query |
| OpenAIService.SearchAnswersWhenAllSucceed | backend/openai_service.py:139-169 | when the context builds and the model replies, the result is `{query, reply}` with that reply |
| OpenAIService.SearchContent | backend/openai_service.py:139-169 | one model call on the prompt built from every entry joined by `"\n---\n"`. The returned query is the input query |
| OpenAIService.SearchWithoutDocuments | backend/openai_service.py:139-169 | with no documents the model sees an empty context |
| OpenAIService.EntriesPerChunk | backend/openai_service.py:142-147 | the context has one entry per chunk. It is built exactly when every document is a dict with iterable chunks, all of them dicts |
| OpenAIService.ContextLength | backend/openai_service.py:148 | the context is the entries plus a five-character separator between each two, with no size bound |
| OpenAIService.SummaryOf | backend/openai_service.py:190-194 | a summary entry's id is `"<filename>_<chunk id or ''>"`, and its `summary` and `context` are the chunk's own, defaulting to `''`. A missing `filename` raises, and so does a chunk that is not a dict |
| OpenAIService.PrepareContentSummary | backend/openai_service.py:185-195 | the nested loop builds one entry per chunk, in document-then-chunk order |
| OpenAIService.SummaryIds | backend/openai_service.py:189-191 | entry `j` of a document is chunk `j`'s, with that chunk's id, summary and context |
| OpenAIService.ChunklessDocNeverIndexed | backend/openai_service.py:189 | a document without chunks adds no entry, even without a filename |
| OpenAIService.MissingFilenameRaises | backend/openai_service.py:191 | a document with chunks and without `filename` raises |
| PineconeService.DefaultIdsDistinct | backend/pinecone_service.py:86 | default ids `"<filename>-chunk-<i>"` differ for different positions |
| PineconeService.ChunkId | backend/pinecone_service.py:86 | a chunk without `chunk_id` gets the default id for its input position |
| PineconeService.Build | backend/pinecone_service.py:84-104 | a non-dict chunk raises. A chunk without a truthy `embedding` is skipped. Otherwise it gives the vector with its id, embedding and metadata |
| PineconeService.Embedded | backend/pinecone_service.py:84-104 | position `i` is listed exactly when chunk `i` is a dict with a truthy `embedding`. The positions are increasing |
| PineconeService.VectorsRaise | backend/pinecone_service.py:84-104 | the vector loop raises exactly when some chunk is not a dict |
| PineconeService.VectorsInOrder | backend/pinecone_service.py:84-104 | one vector per embedded chunk, in input order. Metadata records the input position, so stored indices can have gaps |
| PineconeService.UpsertedKeys | backend/pinecone_service.py:108 | the upsert adds exactly the vectors' ids |
| PineconeService.UpsertedElsewhere | backend/pinecone_service.py:108 | ids outside the batch keep their records |
| PineconeService.UpsertedLastWins | backend/pinecone_service.py:108 | an id holds its last vector of the batch |
| PineconeService.QueryRequestFor | backend/pinecone_service.py:112-131 | the request carries the embedding and `top_k` unchanged and includes metadata. It has the filter `{"tags": {"$in": …}}` exactly when `filter_categories` is truthy |
| PineconeService.EmptyFilterUnfiltered | backend/pinecone_service.py:112-114 | `None` and `[]` both query unfiltered. The default call asks for 20 matches with metadata and no filter |
| PineconeService.PineconeService.Query | backend/pinecone_service.py:112-131 | with truthy `filter_categories` the index is asked with the filter `{"tags": {"$in": filter_categories}}`, otherwise with no filter. Both ask for `top_k` matches with metadata |
| PineconeService.PineconeService.UpsertChunks | backend/pinecone_service.py:79-110 | one upsert of all vectors, and True, when some vector was built. Otherwise the index is untouched and the result is False. A non-dict chunk raises before the index is touched |
| QueryEngine.ChunkPreview | backend/query_engine.py:69-72 | the preview is the first `min(len, 300)` characters and `"..."` |
| QueryEngine.PreviewIgnoresQuery | backend/query_engine.py:69-72 | the query argument plays no part |
| QueryEngine.PreviewOf | backend/query_engine.py:39 | previewing needs a string |
| QueryEngine.RelevantChunkOf | backend/query_engine.py:38-43 | an entry exists exactly when the metadata is a dict whose `text` (default `''`) is a string. It holds that text's preview, `source` (default `"Unknown"`), `tags` (default `{}`) and the match's score |
| QueryEngine.RelevantChunksInOrder | backend/query_engine.py:37-45 | one entry per match, in match order |
| QueryEngine.PromptText | backend/query_engine.py:55 | at most the first 500 characters of a text |
| QueryEngine.FormatChunksForGpt | backend/query_engine.py:48-56 | the loop computes the numbered prompt material |
| QueryEngine.FormattedRaiseStays | backend/query_engine.py:51-55 | once a match raises, formatting has raised |
| QueryEngine.Blocks | backend/query_engine.py:51-55 | block `k` is match `k`'s, numbered `k + 1` |
| QueryEngine.FormattedIsNumberedBlocks | backend/query_engine.py:48-56 | the material is the numbered blocks in match order, and exists exactly when every block does |
| QueryEngine.ProcessQuery | backend/query_engine.py:8-46 | the short answer comes exactly when the search gives `None` or no match. It holds the fixed message and no chunks. A full answer echoes the query, and its suggestions are the model's reply to `Query: {query}\n\nRelevant Materials:\n{formatted}`, built from the formatted matches |
| QueryEngine.FullAnswerWhenAllSucceed | backend/query_engine.py:15-46 | when the search gives matches, every block formats, the model answers and every match previews, the result is a full answer holding the model's reply |
| QueryEngine.RelevantChunksExist | backend/query_engine.py:34-45 | the comprehension goes through when every match has an entry |
| QueryEngine.NothingFoundWithoutModel | backend/query_engine.py:13-17 | an empty or `None` result gives the fixed short answer, whatever the model would say |
| QueryEngine.AnswerShape | backend/query_engine.py:34-45 | a full answer echoes the query. It has one entry per match, in order, with confidence the score, source defaulting to `"Unknown"`, tags to `{}`, and text the preview of the match's `text` (default `''`), at most 303 characters |
| QueryEngine.StoredMetadataReadsBlank | backend/query_engine.py:39-41 | when the query engine searches the index that `upsert_chunks` wrote, that metadata previews as `"..."` from `"Unknown"` |
| StorageService.KeysApart | backend/storage_service.py:58 | document keys list only under `documents/`, and processed keys only under `processed/` |
| StorageService.DocumentNameRoundTrip | backend/storage_service.py:74 | an upload lists under its own name exactly when the name does not contain `documents/` |
| StorageService.ProcessedNameRoundTrip | backend/storage_service.py:79 | a record lists under its own name exactly when the name contains neither `processed/` nor `.json` |
| StorageService.JsonNamedFileListsShort | backend/storage_service.py:79 | `a.json` lists as `a` |
| StorageService.ProcessedRoundTrip | backend/storage_service.py:86-90 | a stored record reads back as itself, and storing again replaces it |
| StorageService.StorageService.UploadFile | backend/storage_service.py:56-60 | writes `documents/<filename>`, changes nothing else, and returns `gs://<bucket>/documents/<filename>` |
| StorageService.StorageService.StoreProcessedContent | backend/storage_service.py:62-69 | writes `processed/<filename>.json` over any earlier record, changes nothing else, and returns its `gs://` URI |
| StorageService.StorageService.ListBlobs | backend/storage_service.py:73 | every key with the prefix, once each |
| StorageService.StorageService.ListDocuments | backend/storage_service.py:71-74 | the names pair one to one, by position, with the distinct `documents/` keys. Each name is its own key with every `documents/` removed, so two keys with the same name list it twice |
| StorageService.StorageService.ListProcessed | backend/storage_service.py:76-79 | the names pair one to one, by position, with the distinct `processed/` keys. Each name is its own key with every `processed/` and `.json` removed, so the records of `a` and `a.json` both list as `a` |
| StorageService.StorageService.GetDocument | backend/storage_service.py:81-84 | the stored bytes, raising when the object is missing |
| StorageService.StorageService.GetProcessed | backend/storage_service.py:86-90 | the stored record decoded |
| StorageService.DistinctCount | backend/storage_service.py:73-74 | a listing of distinct keys is as long as the set of keys |

## Left out

- External services are parameters, not models: the OpenAI chat, vision and embedding calls, the Pinecone client and index creation, and the Cloud Storage client. The similarity search and its floating-point scores live inside the index, so scores pass through as opaque values.
- Library internals are left abstract: PyPDF2, python-docx, base64, `datetime.now()`, file reads, and JSON encoding and decoding. `json.loads` is a partial function, `json.dumps` a total one, and `str()` of non-string values a function.
- The prompt texts are named rather than spelled out: the system prompts (chunking, tagging with the 16 competencies, assistant), the vision prompt and the tagging prompt built by `_create_tagging_prompt`.
- `extract_text_from_image` and `extract_text_from_file` in `backend/openai_service.py` are single model calls with `strip()` and nothing else. No route uses them.
- `backend/app.py`, `backend/vector_store.py`, `backend/test_gcs.py` and the frontend are not part of this model, apart from the upload flow's hand-over of extracted content (`backend/app.py:52-55`).
- OpenAIService.Process: has the same requirement as `OpenAIService.ProcessDocument`, for the same reason (next line).
- OpenAIService.ProcessDocument: requires that bytes come only with the image kind. With other kinds, bytes would reach an f-string as `b'…'`, and the upload flow never sends them there (`OpenAIService.UploadFlowBranches`).
- OpenAIService.ImageBranch: a vision reply with `None` content is not represented. The source catches the `find` that raises on it and returns `([], {})`, while the model fails as for an API error.
- OpenAIService.TextBranch: a chat reply with `None` content is not represented. The source parses it to `[]` chunks and `{}` tags, while the model fails.
- OpenAIService.ProcessPage: a chat reply with `None` content is not represented. The source parses it to `[]` chunks and `{}` tags, while the model fails.
- OpenAIService.SearchContent and OpenAIService.Search: a chat reply with `None` content is not represented. The source returns it as `reply: None`, while the model fails.
- QueryEngine.ProcessQuery: a chat reply with `None` content is not represented. The source returns it as `suggestions: None`, while the model fails.
- OpenAIService.ChunkMessage: states only the length bound of the chunking prompt. What reaches the model is pinned down by `OpenAIService.TextBranchSeesPrefix`.
- OpenAIService.TagMessage: states only the length bound of the tagging prompt.
- OpenAIService.PrepareContentSummary: stops before the final `json.dumps` of the entry list, which is an external encoder.
- DocumentProcessor.NoParagraphDropped: states that every non-blank paragraph survives in some chunk, not the order of the chunks. Order comes from the definition of `Chunks` as a left-to-right fold over the paragraphs, with emitted chunks only appended to (`DocumentProcessor.FoldKeepsChunks`).
- AutoTagger.ValidateTags: requires a well-formed taxonomy, meaning distinct category names and non-empty label lists. The tagger's own table is proved well-formed (`AutoTagger.TaxonomyShape`).
- AutoTagger.TagDocument: the model call is one function of the sample and the filename. The prompt built by `_create_tagging_prompt` is not spelled out. A reply with `None` content reaches the fallback in the source and in the model alike.
- Blank-page detection is the predicate "every character is whitespace". By the contract of `PyText.Strip`, that holds exactly when `strip()` is empty.
- PyText.Lower: lower-cases ASCII letters only. Python's `lower()` also lower-cases other Unicode letters, and this matters only for an extension with such letters.
- Python's whitespace set for `str.isspace` is written out. No Unicode normalisation or case folding beyond ASCII `lower()` is modelled.
- StorageService.StorageService.ListBlobs: the order of the bucket listing is left open. Every key comes once, in some order.
- JSON object key order follows insertion, and lookup takes the first binding. Duplicate keys from the decoder are not otherwise modelled.
- PineconeService: a batch with a repeated id keeps the last vector for that id (`PineconeService.UpsertedLastWins`). Whether Pinecone itself behaves so is outside the model.
- QueryEngine: when several steps of `process_query` would raise, the model reports a failure without saying which exception comes first.
