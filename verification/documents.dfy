/** `DocumentProcessor`: per-page text assembly with page markers, cleaning,
    wrapping the text splitter's output into chunk records, and the integer
    chunk statistics.

    The PDF reader is outside the model: a document arrives as the outcome of
    opening it, either the texts of its pages (`None` for a page without a text
    layer) or the reader's error text. The text splitter is a library the model
    cannot see; it is the parameter `split`, applied to the configuration the
    processor builds. */
module Documents {
  import opened Wrappers
  import opened Strings
  import TextCleaning

  /** The splitter configuration `DocumentProcessor.__init__` builds. */
  datatype SplitterConfig = SplitterConfig(chunkSize: nat, chunkOverlap: nat, separators: seq<string>)

  const DefaultSplitter := SplitterConfig(1500, 300, ["\n\n", "\n", ". ", " ", ""])

  type Splitter = (SplitterConfig, string) -> seq<string>

  /** What the PDF reader yields for one file. */
  type Extraction = Result<seq<Option<string>>, string>

  datatype ChunkMeta = ChunkMeta(source: string, chunkId: nat, totalChunks: nat, charCount: nat)

  datatype Chunk = Chunk(text: string, meta: ChunkMeta)

  const ExtractErrorPrefix := "Error extracting text from PDF: "
  const NoTextError := "No text could be extracted from PDF"

  // ----- page assembly -----

  /** A page counts when its text is present and non-empty (Python's `if page_text:`). */
  predicate HasText(page: Option<string>) {
    page.Some? && page.value != []
  }

  function PageMarker(number: nat): string {
    "\n\n--- Page " + NatToString(number) + " ---\n\n"
  }

  /** What page `number` appends to the document text. */
  function PageContribution(page: Option<string>, number: nat): string {
    if HasText(page) then PageMarker(number) + page.value else []
  }

  /** The loop over `enumerate(pdf.pages, 1)` in `extract_text_from_pdf`. */
  function AssemblePages(pages: seq<Option<string>>): string {
    Concat(seq(|pages|, i requires 0 <= i < |pages| => PageContribution(pages[i], i + 1)))
  }

  /** Every page consumes the next number, whether or not it has text: a page
      appended to the document adds its own contribution, numbered by its
      1-based position, after everything the earlier pages contributed. */
  lemma AssemblePagesAppend(pages: seq<Option<string>>, page: Option<string>)
    ensures AssemblePages(pages + [page]) == AssemblePages(pages) + PageContribution(page, |pages| + 1)
    ensures !HasText(page) ==> AssemblePages(pages + [page]) == AssemblePages(pages)
  {
    var all := pages + [page];
    var parts := seq(|all|, i requires 0 <= i < |all| => PageContribution(all[i], i + 1));
    assert parts[..|parts| - 1] == seq(|pages|, i requires 0 <= i < |pages| => PageContribution(pages[i], i + 1));
  }

  /** The assembled text is blank (all whitespace, `not text.strip()`) exactly
      when no page has text. */
  lemma AssembledBlankIffNoText(pages: seq<Option<string>>)
    ensures TextCleaning.AllSpace(AssemblePages(pages)) <==> forall i :: 0 <= i < |pages| ==> !HasText(pages[i])
  {
    var parts := seq(|pages|, i requires 0 <= i < |pages| => PageContribution(pages[i], i + 1));
    ConcatAllSpace(parts);
    forall i | 0 <= i < |pages|
      ensures TextCleaning.AllSpace(parts[i]) <==> !HasText(pages[i])
    {
      ContributionBlankIffNoText(pages[i], i + 1);
    }
  }

  /** A page with text contributes its marker, which is not blank. */
  lemma ContributionBlankIffNoText(page: Option<string>, number: nat)
    ensures TextCleaning.AllSpace(PageContribution(page, number)) <==> !HasText(page)
  {
    if HasText(page) {
      var m := PageMarker(number);
      assert m[2] == '-';
      assert (m + page.value)[2] == m[2];
    }
  }

  lemma {:induction false} ConcatAllSpace(parts: seq<string>)
    ensures TextCleaning.AllSpace(Concat(parts)) <==> forall i :: 0 <= i < |parts| ==> TextCleaning.AllSpace(parts[i])
    decreases |parts|
  {
    if parts != [] {
      var init := parts[..|parts| - 1];
      var last := parts[|parts| - 1];
      ConcatAllSpace(init);
      assert forall i :: 0 <= i < |init| ==> init[i] == parts[i];
      var c := Concat(init);
      assert Concat(parts) == c + last;
      assert TextCleaning.AllSpace(c + last) <==> TextCleaning.AllSpace(c) && TextCleaning.AllSpace(last) by {
        assert forall i :: 0 <= i < |c| ==> (c + last)[i] == c[i];
        assert forall i :: 0 <= i < |last| ==> (c + last)[|c| + i] == last[i];
      }
    }
  }

  /** `extract_text_from_pdf`: the cleaned page text, or an error when the
      reader fails or no page has text. */
  function ExtractText(isWord: TextCleaning.WordClass, extraction: Extraction): (r: Result<string, string>)
    ensures extraction.Failure? ==> r == Failure(ExtractErrorPrefix + extraction.error)
    ensures extraction.Success? ==>
      (r.Failure? <==> forall i :: 0 <= i < |extraction.value| ==> !HasText(extraction.value[i]))
    ensures extraction.Success? && r.Failure? ==> r.error == ExtractErrorPrefix + NoTextError
    ensures r.Success? ==> r.value == TextCleaning.CleanText(isWord, AssemblePages(extraction.value))
  {
    match extraction
    case Failure(e) => Failure(ExtractErrorPrefix + e)
    case Success(pages) =>
      var text := AssemblePages(pages);
      AssembledBlankIffNoText(pages);
      if TextCleaning.Strip(text) == [] then Failure(ExtractErrorPrefix + NoTextError)
      else Success(TextCleaning.CleanText(isWord, text))
  }

  // ----- chunk records -----

  function Texts(chunks: seq<Chunk>): (r: seq<string>)
    ensures |r| == |chunks|
    ensures forall i :: 0 <= i < |r| ==> r[i] == chunks[i].text
  {
    seq(|chunks|, i requires 0 <= i < |chunks| => chunks[i].text)
  }

  /** The records for `pieces`, the first numbered `first`, each recording `total`. */
  function WrapFrom(pieces: seq<string>, source: string, first: nat, total: nat): (r: seq<Chunk>)
    ensures |r| == |pieces|
    ensures forall i :: 0 <= i < |r| ==>
      r[i].text == pieces[i] && r[i].meta == ChunkMeta(source, first + i, total, |pieces[i]|)
    decreases |pieces|
  {
    if pieces == [] then []
    else [Chunk(pieces[0], ChunkMeta(source, first, total, |pieces[0]|))] + WrapFrom(pieces[1..], source, first + 1, total)
  }

  /** The loop of `create_chunks` over the splitter's output. */
  function WrapPieces(pieces: seq<string>, source: string): (r: seq<Chunk>)
    ensures Texts(r) == pieces
    ensures forall i :: 0 <= i < |r| ==> r[i].meta == ChunkMeta(source, i, |pieces|, |pieces[i]|)
  {
    WrapFrom(pieces, source, 0, |pieces|)
  }

  /** `create_chunks`. */
  function CreateChunks(split: Splitter, text: string, source: string): (r: seq<Chunk>)
    ensures Texts(r) == split(DefaultSplitter, text)
    ensures forall i :: 0 <= i < |r| ==>
      r[i].meta == ChunkMeta(source, i, |r|, |r[i].text|)
  {
    WrapPieces(split(DefaultSplitter, text), source)
  }

  /** `process_pdf`: extraction and chunking, with the file name added to any error. */
  function ProcessPdf(isWord: TextCleaning.WordClass, split: Splitter, extraction: Extraction, filename: string): (r: Result<seq<Chunk>, string>)
    ensures r.Failure? <==> ExtractText(isWord, extraction).Failure?
    ensures r.Failure? ==>
      r.error == "Error processing PDF " + filename + ": " + ExtractText(isWord, extraction).error
    ensures r.Success? ==> Texts(r.value) == split(DefaultSplitter, ExtractText(isWord, extraction).value)
    ensures r.Success? ==> forall i :: 0 <= i < |r.value| ==> r.value[i].meta.source == filename
  {
    match ExtractText(isWord, extraction)
    case Failure(e) => Failure("Error processing PDF " + filename + ": " + e)
    case Success(text) => Success(CreateChunks(split, text, filename))
  }

  // ----- statistics -----

  /** The integer fields of `get_chunk_statistics`. */
  datatype ChunkStatistics = ChunkStatistics(totalChunks: nat, minChunkSize: nat, maxChunkSize: nat, totalCharacters: nat)

  function CharCounts(chunks: seq<Chunk>): (r: seq<nat>)
    ensures |r| == |chunks|
    ensures forall i :: 0 <= i < |r| ==> r[i] == chunks[i].meta.charCount
  {
    seq(|chunks|, i requires 0 <= i < |chunks| => chunks[i].meta.charCount)
  }

  function Sum(xs: seq<nat>): nat
    decreases |xs|
  {
    if xs == [] then 0 else xs[0] + Sum(xs[1..])
  }

  /** Python's `min`. */
  function MinOf(xs: seq<nat>): (m: nat)
    requires xs != []
    ensures m in xs
    ensures forall i :: 0 <= i < |xs| ==> m <= xs[i]
    decreases |xs|
  {
    if |xs| == 1 then xs[0]
    else
      var rest := MinOf(xs[1..]);
      if xs[0] <= rest then xs[0] else rest
  }

  /** Python's `max`. */
  function MaxOf(xs: seq<nat>): (m: nat)
    requires xs != []
    ensures m in xs
    ensures forall i :: 0 <= i < |xs| ==> xs[i] <= m
    decreases |xs|
  {
    if |xs| == 1 then xs[0]
    else
      var rest := MaxOf(xs[1..]);
      if xs[0] >= rest then xs[0] else rest
  }

  /** `get_chunk_statistics` without the floating-point average: `None` for `{}`. */
  function GetChunkStatistics(chunks: seq<Chunk>): (r: Option<ChunkStatistics>)
    ensures r.None? <==> chunks == []
    ensures r.Some? ==> r.value.totalChunks == |chunks|
    ensures r.Some? ==> r.value.totalCharacters == Sum(CharCounts(chunks))
    ensures r.Some? ==> r.value.minChunkSize in CharCounts(chunks) && r.value.maxChunkSize in CharCounts(chunks)
    ensures r.Some? ==> forall i :: 0 <= i < |chunks| ==>
      r.value.minChunkSize <= chunks[i].meta.charCount <= r.value.maxChunkSize
  {
    if chunks == [] then None
    else
      var counts := CharCounts(chunks);
      Some(ChunkStatistics(|chunks|, MinOf(counts), MaxOf(counts), Sum(counts)))
  }

  lemma {:induction false} SumBetween(xs: seq<nat>, lo: nat, hi: nat)
    requires forall i :: 0 <= i < |xs| ==> lo <= xs[i] <= hi
    ensures |xs| * lo <= Sum(xs) <= |xs| * hi
    decreases |xs|
  {
    if xs != [] {
      SumBetween(xs[1..], lo, hi);
      assert |xs| * lo == lo + |xs[1..]| * lo;
      assert |xs| * hi == hi + |xs[1..]| * hi;
    }
  }

  /** The total lies between `n` times the smallest and `n` times the largest chunk size. */
  lemma StatisticsBounds(chunks: seq<Chunk>)
    requires chunks != []
    ensures var s := GetChunkStatistics(chunks).value;
      s.totalChunks * s.minChunkSize <= s.totalCharacters <= s.totalChunks * s.maxChunkSize
  {
    var s := GetChunkStatistics(chunks).value;
    SumBetween(CharCounts(chunks), s.minChunkSize, s.maxChunkSize);
  }

  /** For records made by `create_chunks`, the total character count is the
      length of all split pieces together. */
  lemma StatisticsOfCreatedChunks(split: Splitter, text: string, source: string)
    requires split(DefaultSplitter, text) != []
    ensures GetChunkStatistics(CreateChunks(split, text, source)).value.totalCharacters
      == |Concat(split(DefaultSplitter, text))|
  {
    var pieces := split(DefaultSplitter, text);
    var chunks := CreateChunks(split, text, source);
    assert CharCounts(chunks) == seq(|pieces|, i requires 0 <= i < |pieces| => |pieces[i]|);
    SumOfLengths(pieces);
  }

  lemma {:induction false} SumOfLengths(pieces: seq<string>)
    ensures Sum(seq(|pieces|, i requires 0 <= i < |pieces| => |pieces[i]|)) == |Concat(pieces)|
    decreases |pieces|
  {
    if pieces != [] {
      var init := pieces[..|pieces| - 1];
      SumOfLengths(init);
      SumSnoc(seq(|init|, i requires 0 <= i < |init| => |init[i]|), |pieces[|pieces| - 1]|);
      assert seq(|pieces|, i requires 0 <= i < |pieces| => |pieces[i]|)
        == seq(|init|, i requires 0 <= i < |init| => |init[i]|) + [|pieces[|pieces| - 1]|];
    }
  }

  lemma {:induction false} SumSnoc(xs: seq<nat>, x: nat)
    ensures Sum(xs + [x]) == Sum(xs) + x
    decreases |xs|
  {
    if xs == [] {
      assert xs + [x] == [x];
    } else {
      assert (xs + [x])[1..] == xs[1..] + [x];
      SumSnoc(xs[1..], x);
    }
  }
}
