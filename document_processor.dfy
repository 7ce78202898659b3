/**
 * The document processor: it picks a content kind from a file's extension,
 * extracts the text of PDF, Word and plain-text files (images pass through
 * as bytes), and cuts text into overlapping, paragraph-aligned chunks.
 */
module DocumentProcessor {
  import opened Wrappers
  import opened PyText

  /** What `extract_content` reads from: the uploaded bytes when there are any, else the file at the path. */
  datatype Source = Memory(bytes: seq<Byte>) | Disk(path: string)

  /** The kind tag returned beside the content. */
  datatype Kind = Text | Image | Unsupported

  datatype Content = Str(text: string) | Raw(bytes: seq<Byte>)

  datatype Extraction = Extraction(content: Content, kind: Kind)

  /**
   * The file libraries the processor calls, as partial functions; `None`
   * stands for an exception, which `extract_content` lets propagate.
   */
  datatype Libraries = Libraries(
    pdfPages: Source -> Option<seq<string>>,       // the text of each PDF page, in order
    docxParagraphs: Source -> Option<seq<string>>, // the text of each Word paragraph, in order
    readBytes: string -> Option<seq<Byte>>,        // reading a file in binary mode
    readText: Source -> Option<string>)            // reading a file as text, or decoding bytes as UTF-8

  const TextExtensions: set<string> := {"pdf", "doc", "docx", "txt"}
  const ImageExtensions: set<string> := {"jpg", "jpeg", "png"}

  /** The extension of a path: the text after its last '.', lower-cased (the whole path when it has none). */
  function Extension(path: string): (ext: string)
    ensures '.' !in ext
    ensures |ext| <= |path| && ext == Lower(path[|path| - |ext|..])
    ensures |ext| == |path| || path[|path| - |ext| - 1] == '.'
  {
    var parts := Split(path, ".");
    AfterLastDot(path);
    Lower(parts[|parts| - 1])
  }

  /** The last piece of a split on '.' holds no '.', and is the whole path or follows a '.'. */
  lemma AfterLastDot(path: string)
    ensures var parts := Split(path, "."); var last := parts[|parts| - 1];
      '.' !in last && |last| <= |path| && last == path[|path| - |last|..] &&
      (|last| == |path| || path[|path| - |last| - 1] == '.')
  {
    var parts := Split(path, ".");
    LastPieceOfSplit(path, ".");
    var p := LastPieceStart(path, ".");
    SplitPiecesLackSeparator(path, ".");
    var last := parts[|parts| - 1];
    LacksChar(last, '.');
    assert |last| == |path| - p;
    assert p == 0 || path[p - 1] == path[p - 1..p][0];
  }

  /** Python treats empty bytes like a missing upload: both fall back to the path. */
  function SourceOf(path: string, upload: Option<seq<Byte>>): Source
  {
    if upload.Some? && upload.value != [] then Memory(upload.value) else Disk(path)
  }

  /** What `_extract_from_pdf` accumulates: every page's text followed by a newline, in page order. */
  function PdfText(pages: seq<string>): string
  {
    if pages == [] then "" else PdfText(pages[..|pages| - 1]) + pages[|pages| - 1] + "\n"
  }

  /** The PDF text is the newline-join of the pages with one trailing newline, and drops no character. */
  lemma {:induction false} PdfTextJoin(pages: seq<string>)
    ensures pages == [] ==> PdfText(pages) == ""
    ensures pages != [] ==> PdfText(pages) == Join("\n", pages) + "\n"
    ensures |PdfText(pages)| == TotalLength(pages) + |pages|
  {
    if pages != [] {
      var init := pages[..|pages| - 1];
      var last := pages[|pages| - 1];
      PdfTextJoin(init);
      assert init + [last] == pages;
      if init != [] {
        JoinSnoc("\n", init, last);
      }
      JoinLength("\n", pages);
    }
  }

  /** The loop of `_extract_from_pdf` over the pages the PDF library reports. */
  method ExtractFromPdf(pages: seq<string>) returns (text: string)
    ensures text == PdfText(pages)
    ensures pages != [] ==> text == Join("\n", pages) + "\n"
  {
    text := "";
    for i := 0 to |pages|
      invariant text == PdfText(pages[..i])
    {
      assert pages[..i + 1][..i] == pages[..i];
      text := text + pages[i] + "\n";
    }
    assert pages[..|pages|] == pages;
    PdfTextJoin(pages);
  }

  /**
   * `extract_content`: dispatch on the extension. PDF and Word files become
   * text, plain-text files are read, images come back as bytes, and any
   * other extension yields a message tagged unsupported. `None` is an
   * exception raised by a library or by opening the file.
   */
  function ExtractContent(lib: Libraries, path: string, upload: Option<seq<Byte>>): (r: Option<Extraction>)
    ensures r.Some? ==> (r.value.kind == Text <==> Extension(path) in TextExtensions)
    ensures r.Some? ==> (r.value.kind == Image <==> Extension(path) in ImageExtensions)
    ensures r.Some? ==> (r.value.kind == Image <==> r.value.content.Raw?)
    ensures r.None? ==> Extension(path) in TextExtensions + ImageExtensions
    ensures Extension(path) !in TextExtensions + ImageExtensions ==>
      r == Some(Extraction(Str("Unsupported file type: " + Extension(path)), Unsupported))
    ensures Extension(path) in ImageExtensions && upload.Some? && upload.value != [] ==>
      r == Some(Extraction(Raw(upload.value), Image))
    ensures Extension(path) == "pdf" ==>
      r == if lib.pdfPages(SourceOf(path, upload)).Some?
        then Some(Extraction(Str(PdfText(lib.pdfPages(SourceOf(path, upload)).value)), Text)) else None
    ensures Extension(path) in {"doc", "docx"} ==>
      r == if lib.docxParagraphs(SourceOf(path, upload)).Some?
        then Some(Extraction(Str(Join("\n", lib.docxParagraphs(SourceOf(path, upload)).value)), Text)) else None
    ensures Extension(path) in ImageExtensions && SourceOf(path, upload).Disk? ==>
      r == if lib.readBytes(path).Some? then Some(Extraction(Raw(lib.readBytes(path).value), Image)) else None
    ensures Extension(path) == "txt" ==>
      r == if lib.readText(SourceOf(path, upload)).Some?
        then Some(Extraction(Str(lib.readText(SourceOf(path, upload)).value), Text)) else None
  {
    var ext := Extension(path);
    var src := SourceOf(path, upload);
    if ext == "pdf" then
      match lib.pdfPages(src)
      case Some(pages) => Some(Extraction(Str(PdfText(pages)), Text))
      case None => None
    else if ext in {"doc", "docx"} then
      match lib.docxParagraphs(src)
      case Some(paragraphs) => Some(Extraction(Str(Join("\n", paragraphs)), Text))
      case None => None
    else if ext in ImageExtensions then
      if src.Memory? then Some(Extraction(Raw(src.bytes), Image))
      else
        match lib.readBytes(path)
        case Some(bytes) => Some(Extraction(Raw(bytes), Image))
        case None => None
    else if ext == "txt" then
      match lib.readText(src)
      case Some(text) => Some(Extraction(Str(text), Text))
      case None => None
    else
      Some(Extraction(Str("Unsupported file type: " + ext), Unsupported))
  }

  // ---------------------------------------------------------------------
  // chunk_document

  /** The loop state of `chunk_document`: the chunks emitted so far and the buffer `current_chunk`. */
  datatype ChunkState = ChunkState(chunks: seq<string>, current: string)

  const ParagraphBreak := "\n\n"

  /** What a flush keeps of the buffer, `buf[-overlap:]`, or nothing when overlap is not positive. */
  function Carry(buf: string, overlap: int): (r: string)
    ensures overlap <= 0 ==> r == ""
    ensures overlap > 0 ==> |r| == (if overlap < |buf| then overlap else |buf|)
    ensures overlap > 0 ==> r == buf[|buf| - |r|..]
  {
    if overlap > 0 then TakeLast(buf, overlap) else ""
  }

  /** Whether adding paragraph `p` to a non-empty buffer would pass the chunk size. */
  predicate Flushes(st: ChunkState, p: string, size: int)
  {
    |st.current| + |p| > size && st.current != ""
  }

  /** One pass of the loop body over paragraph `p`. */
  function Step(st: ChunkState, p: string, size: int, overlap: int): ChunkState
  {
    if Strip(p) == "" then st
    else if Flushes(st, p, size) then
      ChunkState(st.chunks + [Strip(st.current)], Carry(st.current, overlap) + p + ParagraphBreak)
    else
      ChunkState(st.chunks, st.current + p + ParagraphBreak)
  }

  function Fold(ps: seq<string>, st: ChunkState, size: int, overlap: int): ChunkState
    decreases |ps|
  {
    if ps == [] then st else Fold(ps[1..], Step(st, ps[0], size, overlap), size, overlap)
  }

  /** After the loop: the buffer becomes the last chunk when it is not blank. */
  function Finish(st: ChunkState): seq<string>
  {
    if Strip(st.current) != "" then st.chunks + [Strip(st.current)] else st.chunks
  }

  function Paragraphs(text: string): seq<string>
  {
    Split(text, ParagraphBreak)
  }

  /** The chunks `chunk_document(text, size, overlap)` returns. */
  function Chunks(text: string, size: int, overlap: int): seq<string>
  {
    Finish(Fold(Paragraphs(text), ChunkState([], ""), size, overlap))
  }

  /** `chunk_document`: the greedy paragraph loop with its buffer. */
  method ChunkDocument(text: string, chunkSize: int, overlap: int) returns (chunks: seq<string>)
    ensures chunks == Chunks(text, chunkSize, overlap)
    ensures forall c :: c in chunks ==> c != "" && Stripped(c)
    ensures IsBlank(text) ==> chunks == []
    ensures !IsBlank(text) && |text| <= chunkSize ==> |chunks| == 1
  {
    var paragraphs := Split(text, "\n\n");
    chunks := [];
    var current := "";
    for i := 0 to |paragraphs|
      invariant Fold(paragraphs[i..], ChunkState(chunks, current), chunkSize, overlap)
             == Fold(paragraphs, ChunkState([], ""), chunkSize, overlap)
    {
      var paragraph := paragraphs[i];
      assert paragraphs[i..][1..] == paragraphs[i + 1..];
      ghost var before := ChunkState(chunks, current);
      if Strip(paragraph) == "" {
        continue;
      }
      if |current| + |paragraph| > chunkSize && current != "" {
        chunks := chunks + [Strip(current)];
        current := if overlap > 0 then TakeLast(current, overlap) else "";
      }
      current := current + paragraph + "\n\n";
      assert ChunkState(chunks, current) == Step(before, paragraph, chunkSize, overlap);
    }
    if Strip(current) != "" {
      chunks := chunks + [Strip(current)];
    }
    ChunksWellFormed(text, chunkSize, overlap);
    if IsBlank(text) {
      ChunksOfBlankText(text, chunkSize, overlap);
    }
    if !IsBlank(text) && |text| <= chunkSize {
      ShortTextOneChunk(text, chunkSize, overlap);
    }
  }

  // ----- every chunk is non-empty and stripped

  /** The loop's invariant: emitted chunks are non-empty and stripped, and a non-empty buffer is not blank. */
  predicate Good(st: ChunkState)
  {
    (forall c :: c in st.chunks ==> c != "" && Stripped(c)) &&
    (st.current == "" || !IsBlank(st.current))
  }

  lemma StepGood(st: ChunkState, p: string, size: int, overlap: int)
    requires Good(st)
    ensures Good(Step(st, p, size, overlap))
  {
    if Strip(p) != "" {
      var st' := Step(st, p, size, overlap);
      var pre := if Flushes(st, p, size) then Carry(st.current, overlap) else st.current;
      assert st'.current == pre + p + ParagraphBreak;
      if IsBlank(st'.current) {
        BlankInner(pre, p, ParagraphBreak);
      }
    }
  }

  lemma {:induction false} FoldGood(ps: seq<string>, st: ChunkState, size: int, overlap: int)
    requires Good(st)
    ensures Good(Fold(ps, st, size, overlap))
    decreases |ps|
  {
    if ps != [] {
      StepGood(st, ps[0], size, overlap);
      FoldGood(ps[1..], Step(st, ps[0], size, overlap), size, overlap);
    }
  }

  /** Every chunk is non-empty and equal to its own `strip()`. */
  lemma ChunksWellFormed(text: string, size: int, overlap: int)
    ensures forall c :: c in Chunks(text, size, overlap) ==> c != "" && Stripped(c)
  {
    FoldGood(Paragraphs(text), ChunkState([], ""), size, overlap);
  }

  // ----- blank text gives no chunk

  lemma {:induction false} FoldBlank(ps: seq<string>, st: ChunkState, size: int, overlap: int)
    requires forall p :: p in ps ==> IsBlank(p)
    ensures Fold(ps, st, size, overlap) == st
    decreases |ps|
  {
    if ps != [] {
      FoldBlank(ps[1..], st, size, overlap);
    }
  }

  /** Empty or whitespace-only text gives no chunk at all. */
  lemma ChunksOfBlankText(text: string, size: int, overlap: int)
    requires IsBlank(text)
    ensures Chunks(text, size, overlap) == []
  {
    SplitBlank(text, ParagraphBreak);
    FoldBlank(Paragraphs(text), ChunkState([], ""), size, overlap);
  }

  // ----- a short text gives one chunk

  /** The buffer stays non-blank once a non-blank paragraph has been added. */
  lemma {:induction false} FoldCurrentNonBlank(ps: seq<string>, st: ChunkState, size: int, overlap: int)
    requires !IsBlank(st.current) || exists p :: p in ps && !IsBlank(p)
    ensures !IsBlank(Fold(ps, st, size, overlap).current)
    decreases |ps|
  {
    if ps != [] {
      var st' := Step(st, ps[0], size, overlap);
      if !IsBlank(ps[0]) {
        var pre := if Flushes(st, ps[0], size) then Carry(st.current, overlap) else st.current;
        assert st'.current == pre + ps[0] + ParagraphBreak;
        if IsBlank(st'.current) {
          BlankInner(pre, ps[0], ParagraphBreak);
        }
      } else if IsBlank(st.current) {
        var p :| p in ps && !IsBlank(p);
        assert p != ps[0];
        assert p in ps[1..];
      }
      FoldCurrentNonBlank(ps[1..], st', size, overlap);
    }
  }

  /** While the remaining paragraphs fit beside the buffer, nothing is flushed. */
  lemma {:induction false} FoldNoFlush(ps: seq<string>, st: ChunkState, size: int, overlap: int)
    requires |st.current| + TotalLength(ps) + 2 * |ps| <= size + 2
    ensures Fold(ps, st, size, overlap).chunks == st.chunks
    decreases |ps|
  {
    if ps != [] {
      var st' := Step(st, ps[0], size, overlap);
      assert TotalLength(ps) == |ps[0]| + TotalLength(ps[1..]);
      assert !Flushes(st, ps[0], size);
      FoldNoFlush(ps[1..], st', size, overlap);
    }
  }

  /** A non-blank text no longer than the chunk size yields exactly one chunk. */
  lemma ShortTextOneChunk(text: string, size: int, overlap: int)
    requires !IsBlank(text) && |text| <= size
    ensures |Chunks(text, size, overlap)| == 1
  {
    var ps := Paragraphs(text);
    JoinSplit(text, ParagraphBreak);
    JoinLength(ParagraphBreak, ps);
    var init := ChunkState([], "");
    FoldNoFlush(ps, init, size, overlap);
    if forall p :: p in ps ==> IsBlank(p) {
      JoinBlank(ParagraphBreak, ps);
      assert false;
    }
    FoldCurrentNonBlank(ps, init, size, overlap);
  }

  // ----- no paragraph is dropped

  /** Paragraph `q` is accounted for: inside an emitted chunk or still in the buffer. */
  predicate Tracked(st: ChunkState, q: string)
  {
    InChunks(st.chunks, q) || Contains(st.current, q)
  }

  predicate InChunks(chunks: seq<string>, q: string)
  {
    exists c :: c in chunks && Contains(c, Strip(q))
  }

  lemma InChunksGrow(chunks: seq<string>, added: seq<string>, q: string)
    requires InChunks(chunks, q)
    ensures InChunks(chunks + added, q)
  {
    var c :| c in chunks && Contains(c, Strip(q));
    assert c in chunks + added;
  }

  lemma StepTracks(st: ChunkState, p: string, q: string, size: int, overlap: int)
    requires !IsBlank(q) && (Tracked(st, q) || q == p)
    ensures Tracked(Step(st, p, size, overlap), q)
  {
    if Strip(p) != "" {
      var flush := Flushes(st, p, size);
      var pre := if flush then Carry(st.current, overlap) else st.current;
      var added := if flush then [Strip(st.current)] else [];
      var st' := ChunkState(st.chunks + added, pre + p + ParagraphBreak);
      assert Step(st, p, size, overlap) == st';
      if q == p {
        ContainsSelf(p);
        ContainsExtend(p, p, pre, ParagraphBreak);
      } else if InChunks(st.chunks, q) {
        InChunksGrow(st.chunks, added, q);
      } else if flush {
        StripKeepsPiece(st.current, q);
        assert Strip(st.current) in st'.chunks;
      } else {
        ContainsExtend(st.current, q, [], p + ParagraphBreak);
        assert [] + st.current + (p + ParagraphBreak) == st'.current;
      }
    }
  }

  lemma {:induction false} FoldTracks(ps: seq<string>, st: ChunkState, q: string, size: int, overlap: int)
    requires !IsBlank(q) && (Tracked(st, q) || q in ps)
    ensures Tracked(Fold(ps, st, size, overlap), q)
    decreases |ps|
  {
    if ps != [] {
      if Tracked(st, q) || q == ps[0] {
        StepTracks(st, ps[0], q, size, overlap);
      } else {
        assert q in ps[1..];
      }
      FoldTracks(ps[1..], Step(st, ps[0], size, overlap), q, size, overlap);
    }
  }

  /** No non-blank paragraph is dropped: its stripped text occurs inside some chunk. */
  lemma NoParagraphDropped(text: string, size: int, overlap: int, q: string)
    requires q in Paragraphs(text) && !IsBlank(q)
    ensures exists c :: c in Chunks(text, size, overlap) && Contains(c, Strip(q))
  {
    var st := Fold(Paragraphs(text), ChunkState([], ""), size, overlap);
    FoldTracks(Paragraphs(text), ChunkState([], ""), q, size, overlap);
    if InChunks(st.chunks, q) {
      InChunksGrow(st.chunks, Finish(st)[|st.chunks|..], q);
      assert st.chunks + Finish(st)[|st.chunks|..] == Finish(st);
    } else {
      ContainsBlank(st.current, q);
      StripKeepsPiece(st.current, q);
      assert Strip(st.current) in Finish(st);
    }
  }

  // ----- without overlap

  predicate EndsWithBreak(s: string)
  {
    s == "" || (|s| >= 2 && s[|s| - 2..] == ParagraphBreak)
  }

  /** A chunk within the size, or the stripped text of one paragraph of `all` that alone passes it. */
  predicate Sized(c: string, all: seq<string>, size: int)
  {
    |c| <= size || exists p :: p in all && |p| > size && c == Strip(p)
  }

  /** The invariant without overlap: the buffer is empty, within the size plus its break, or one long paragraph. */
  predicate SizedState(st: ChunkState, all: seq<string>, size: int)
  {
    (forall c :: c in st.chunks ==> Sized(c, all, size)) &&
    EndsWithBreak(st.current) &&
    (st.current == "" || |st.current| <= size + 2 ||
     exists p :: p in all && |p| > size && st.current == p + ParagraphBreak)
  }

  /** Stripping a buffer that the invariant bounds gives a chunk that is `Sized`. */
  lemma FlushedSized(st: ChunkState, all: seq<string>, size: int)
    requires SizedState(st, all, size) && st.current != ""
    ensures Sized(Strip(st.current), all, size)
  {
    var cur := st.current;
    var body := cur[..|cur| - 2];
    assert cur == body + ParagraphBreak;
    StripBlankSuffix(body, ParagraphBreak);
    if |cur| > size + 2 {
      var p :| p in all && |p| > size && cur == p + ParagraphBreak;
      assert body == p;
    }
  }

  /** A buffer ending in a paragraph break ends with a break. */
  lemma BreakEnds(x: string)
    ensures EndsWithBreak(x + ParagraphBreak)
  {
    var s := x + ParagraphBreak;
    assert s[|s| - 2..] == ParagraphBreak;
  }

  /** After a flush the chunks grow by one `Sized` chunk. */
  lemma ChunksSized(chunks: seq<string>, c: string, all: seq<string>, size: int)
    requires forall d :: d in chunks ==> Sized(d, all, size)
    requires Sized(c, all, size)
    ensures forall d :: d in chunks + [c] ==> Sized(d, all, size)
  {
  }

  /** A buffer holding one paragraph of `all` and its break is within the invariant. */
  lemma OneParagraphBuffer(p: string, all: seq<string>, size: int)
    requires p in all
    ensures var cur := p + ParagraphBreak;
      EndsWithBreak(cur) && (|cur| <= size + 2 || exists q :: q in all && |q| > size && cur == q + ParagraphBreak)
  {
    BreakEnds(p);
  }

  lemma StepSized(st: ChunkState, p: string, all: seq<string>, size: int, overlap: int)
    requires overlap <= 0 && p in all && SizedState(st, all, size)
    ensures SizedState(Step(st, p, size, overlap), all, size)
  {
    if Strip(p) != "" {
      if Flushes(st, p, size) {
        FlushedSized(st, all, size);
        ChunksSized(st.chunks, Strip(st.current), all, size);
        assert Carry(st.current, overlap) + p + ParagraphBreak == p + ParagraphBreak;
        assert Step(st, p, size, overlap) == ChunkState(st.chunks + [Strip(st.current)], p + ParagraphBreak);
        OneParagraphBuffer(p, all, size);
      } else if st.current == "" {
        assert st.current + p + ParagraphBreak == p + ParagraphBreak;
        assert Step(st, p, size, overlap) == ChunkState(st.chunks, p + ParagraphBreak);
        OneParagraphBuffer(p, all, size);
      } else {
        assert Step(st, p, size, overlap) == ChunkState(st.chunks, st.current + p + ParagraphBreak);
        BreakEnds(st.current + p);
        assert |st.current + p + ParagraphBreak| <= size + 2;
      }
    }
  }

  lemma {:induction false} FoldSized(ps: seq<string>, st: ChunkState, all: seq<string>, size: int, overlap: int)
    requires overlap <= 0 && (forall p :: p in ps ==> p in all) && SizedState(st, all, size)
    ensures SizedState(Fold(ps, st, size, overlap), all, size)
    decreases |ps|
  {
    if ps != [] {
      StepSized(st, ps[0], all, size, overlap);
      FoldSized(ps[1..], Step(st, ps[0], size, overlap), all, size, overlap);
    }
  }

  /**
   * Without overlap, a chunk is never longer than the chunk size unless it
   * is one paragraph that is longer on its own.
   */
  lemma ChunkSizeWithoutOverlap(text: string, size: int, overlap: int)
    requires overlap <= 0
    ensures forall c :: c in Chunks(text, size, overlap) ==>
      |c| <= size || exists p :: p in Paragraphs(text) && |p| > size && c == Strip(p)
  {
    var all := Paragraphs(text);
    var st := Fold(all, ChunkState([], ""), size, overlap);
    FoldSized(all, ChunkState([], ""), all, size, overlap);
    if Strip(st.current) != "" {
      FlushedSized(st, all, size);
    }
    assert forall c :: c in Finish(st) ==> Sized(c, all, size);
  }

  // ----- a long paragraph stands alone

  lemma {:induction false} FoldAppend(xs: seq<string>, ys: seq<string>, st: ChunkState, size: int, overlap: int)
    ensures Fold(xs + ys, st, size, overlap) == Fold(ys, Fold(xs, st, size, overlap), size, overlap)
    decreases |xs|
  {
    if xs == [] {
      assert xs + ys == ys;
    } else {
      assert (xs + ys)[1..] == xs[1..] + ys;
      FoldAppend(xs[1..], ys, Step(st, xs[0], size, overlap), size, overlap);
    }
  }

  lemma {:induction false} FoldKeepsChunks(ps: seq<string>, st: ChunkState, size: int, overlap: int)
    ensures st.chunks <= Fold(ps, st, size, overlap).chunks
    decreases |ps|
  {
    if ps != [] {
      FoldKeepsChunks(ps[1..], Step(st, ps[0], size, overlap), size, overlap);
    }
  }

  lemma InPrefix<T>(xs: seq<T>, ys: seq<T>, i: nat)
    requires xs <= ys && i < |xs|
    ensures xs[i] in ys
  {
    assert ys[i] == xs[i];
  }

  /** A chunk already emitted is among the final chunks. */
  lemma FinishKeeps(st: ChunkState, c: string)
    requires c in st.chunks
    ensures c in Finish(st)
  {
  }

  /** A buffer holding just one long paragraph is flushed whole, by the next paragraph or at the end. */
  lemma {:induction false} LongBufferEmitted(ps: seq<string>, st: ChunkState, p: string, size: int, overlap: int)
    requires !IsBlank(p) && |p| > size && st.current == p + ParagraphBreak
    ensures Strip(p) in Finish(Fold(ps, st, size, overlap))
    decreases |ps|
  {
    StripBlankSuffix(p, ParagraphBreak);
    assert Strip(st.current) == Strip(p) != "";
    if ps == [] {
      assert Fold(ps, st, size, overlap) == st;
    } else if Strip(ps[0]) == "" {
      assert Fold(ps, st, size, overlap) == Fold(ps[1..], st, size, overlap);
      LongBufferEmitted(ps[1..], st, p, size, overlap);
    } else {
      var st' := Step(st, ps[0], size, overlap);
      assert Flushes(st, ps[0], size);
      assert st'.chunks == st.chunks + [Strip(p)];
      FoldKeepsChunks(ps[1..], st', size, overlap);
      var last := Fold(ps[1..], st', size, overlap);
      assert Fold(ps, st, size, overlap) == last;
      InPrefix(st'.chunks, last.chunks, |st.chunks|);
      FinishKeeps(last, Strip(p));
    }
  }

  /** Without overlap, a long paragraph leaves the buffer holding just itself. */
  lemma StepLong(st: ChunkState, p: string, size: int, overlap: int)
    requires overlap <= 0 && !IsBlank(p) && |p| > size
    ensures Step(st, p, size, overlap).current == p + ParagraphBreak
  {
    assert Strip(p) != "";
    if !Flushes(st, p, size) {
      assert st.current == "";
    }
    assert [] + p + ParagraphBreak == p + ParagraphBreak;
  }

  /** Without overlap, a non-blank paragraph longer than the chunk size becomes a chunk on its own. */
  lemma LongParagraphAlone(text: string, size: int, overlap: int, p: string)
    requires overlap <= 0 && p in Paragraphs(text) && !IsBlank(p) && |p| > size
    ensures Strip(p) in Chunks(text, size, overlap)
  {
    var ps := Paragraphs(text);
    var j :| 0 <= j < |ps| && ps[j] == p;
    assert ps == ps[..j] + ([p] + ps[j + 1..]);
    var init := ChunkState([], "");
    FoldAppend(ps[..j], [p] + ps[j + 1..], init, size, overlap);
    var before := Fold(ps[..j], init, size, overlap);
    var after := Step(before, p, size, overlap);
    StepLong(before, p, size, overlap);
    assert ([p] + ps[j + 1..])[1..] == ps[j + 1..];
    LongBufferEmitted(ps[j + 1..], after, p, size, overlap);
  }
}
