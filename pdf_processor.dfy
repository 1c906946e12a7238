/** Turning an uploaded PDF into chunk documents: one record per page, then every page's text
    cut by the text splitter, each piece carrying its page's record as metadata.

    The PDF library is represented by its output, a sequence of pages with their number and
    extracted text, and the text splitter by a function `split` from a page's text to its
    pieces; neither is modelled further. */
module PdfProcessor {
  import opened Wrappers

  /** One page as the PDF library yields it: its page number and the text it extracted, which
      may be missing. */
  datatype RawPage = RawPage(number: int, text: Option<string>)

  /** The per-page record `{'page', 'filename', 'content'}`. */
  datatype PageRecord = PageRecord(page: int, filename: string, content: string)

  /** A chunk: the splitter's piece and, as metadata, the record of the page it came from. */
  datatype Document = Document(pageContent: string, metadata: PageRecord)

  /** The record of one page; missing text becomes the empty string. */
  function RecordOf(raw: RawPage, filename: string): PageRecord
  {
    PageRecord(raw.number, filename, raw.text.GetOr(""))
  }

  /** The records of all pages, one per page and in page order. */
  function Records(pages: seq<RawPage>, filename: string): (r: seq<PageRecord>)
    ensures |r| == |pages|
    ensures forall i :: 0 <= i < |pages| ==> r[i] == RecordOf(pages[i], filename)
  {
    seq(|pages|, i requires 0 <= i < |pages| => RecordOf(pages[i], filename))
  }

  /** The loop over the document's pages that builds their records. */
  method ExtractTextFromPdf(pages: seq<RawPage>, filename: string) returns (result: seq<PageRecord>)
    ensures |result| == |pages|
    ensures forall i :: 0 <= i < |pages| ==>
      && result[i].page == pages[i].number
      && result[i].filename == filename
      && result[i].content == (if pages[i].text.Some? then pages[i].text.value else "")
    ensures result == Records(pages, filename)
  {
    result := [];
    for i := 0 to |pages|
      invariant |result| == i
      invariant forall j :: 0 <= j < i ==> result[j] == RecordOf(pages[j], filename)
    {
      var text := if pages[i].text.Some? then pages[i].text.value else "";
      result := result + [PageRecord(pages[i].number, filename, text)];
    }
  }

  /** The documents made from one page's pieces, in splitter order. */
  function Wrap(pieces: seq<string>, page: PageRecord): (r: seq<Document>)
    ensures |r| == |pieces|
    ensures forall i :: 0 <= i < |pieces| ==> r[i] == Document(pieces[i], page)
  {
    seq(|pieces|, i requires 0 <= i < |pieces| => Document(pieces[i], page))
  }

  /** The documents of all pages: each page's pieces, page after page. Every document is a
      piece of its own page's text and carries that page's record. */
  function Chunks(pages: seq<PageRecord>, split: string -> seq<string>): (r: seq<Document>)
    ensures forall d :: d in r ==> d.metadata in pages && d.pageContent in split(d.metadata.content)
  {
    if pages == [] then []
    else Wrap(split(pages[0].content), pages[0]) + Chunks(pages[1..], split)
  }

  /** Chunking two runs of pages gives the two runs' chunks one after the other. */
  lemma {:induction false} ChunksAppend(a: seq<PageRecord>, b: seq<PageRecord>, split: string -> seq<string>)
    ensures Chunks(a + b, split) == Chunks(a, split) + Chunks(b, split)
  {
    if a == [] {
      assert a + b == b;
    } else {
      assert (a + b)[0] == a[0] && (a + b)[1..] == a[1..] + b;
      ChunksAppend(a[1..], b, split);
    }
  }

  /** One more page appends exactly its own pieces. */
  lemma ChunksSnoc(pages: seq<PageRecord>, page: PageRecord, split: string -> seq<string>)
    ensures Chunks(pages + [page], split) == Chunks(pages, split) + Wrap(split(page.content), page)
  {
    ChunksAppend(pages, [page], split);
    assert [page][1..] == [];
  }

  /** The loop over the pages, with an inner loop over each page's pieces. */
  method SplitIntoChunks(pagesContent: seq<PageRecord>, split: string -> seq<string>)
    returns (listDocument: seq<Document>)
    ensures listDocument == Chunks(pagesContent, split)
  {
    listDocument := [];
    for i := 0 to |pagesContent|
      invariant listDocument == Chunks(pagesContent[..i], split)
    {
      var content := pagesContent[i];
      var chunks := split(content.content);
      for j := 0 to |chunks|
        invariant listDocument == Chunks(pagesContent[..i], split) + Wrap(chunks[..j], content)
      {
        assert Wrap(chunks[..j + 1], content) == Wrap(chunks[..j], content) + [Document(chunks[j], content)];
        listDocument := listDocument + [Document(chunks[j], content)];
      }
      assert chunks[..|chunks|] == chunks;
      assert pagesContent[..i + 1] == pagesContent[..i] + [content];
      ChunksSnoc(pagesContent[..i], content, split);
    }
    assert pagesContent[..|pagesContent|] == pagesContent;
  }

  /** The total number of pieces the splitter makes of the pages. */
  function PieceCount(pages: seq<PageRecord>, split: string -> seq<string>): nat
  {
    if pages == [] then 0 else |split(pages[0].content)| + PieceCount(pages[1..], split)
  }

  /** There is one document per piece. */
  lemma {:induction false} ChunksCount(pages: seq<PageRecord>, split: string -> seq<string>)
    ensures |Chunks(pages, split)| == PieceCount(pages, split)
  {
    if pages != [] {
      ChunksCount(pages[1..], split);
    }
  }

  /** Where each piece lands: piece `q` of page `p` comes right after the pieces of the pages
      before `p` and the first `q` pieces of `p`, with its text unchanged and `p`'s record as
      metadata. */
  lemma ChunkAt(pages: seq<PageRecord>, split: string -> seq<string>, p: nat, q: nat)
    requires p < |pages| && q < |split(pages[p].content)|
    ensures PieceCount(pages[..p], split) + q < |Chunks(pages, split)|
    ensures Chunks(pages, split)[PieceCount(pages[..p], split) + q]
         == Document(split(pages[p].content)[q], pages[p])
  {
    var before, page, after := pages[..p], pages[p], pages[p + 1..];
    assert pages == before + ([page] + after);
    ChunkAtPage(before, page, after, split, q);
  }

  /** `ChunkAt` for a list given as the pages before, the page itself and the pages after. */
  lemma ChunkAtPage(before: seq<PageRecord>, page: PageRecord, after: seq<PageRecord>,
                    split: string -> seq<string>, q: nat)
    requires q < |split(page.content)|
    ensures PieceCount(before, split) + q < |Chunks(before + ([page] + after), split)|
    ensures Chunks(before + ([page] + after), split)[PieceCount(before, split) + q]
         == Document(split(page.content)[q], page)
  {
    ChunksAround(before, page, after, split);
    ChunksCount(before, split);
    var prior, own, rest := Chunks(before, split), Wrap(split(page.content), page), Chunks(after, split);
    var all := Chunks(before + ([page] + after), split);
    ConcatIndex(all, prior, own, rest, PieceCount(before, split), q);
    assert all[PieceCount(before, split) + q] == own[q];
    assert own[q] == Document(split(page.content)[q], page);
  }

  /** Indexing into the middle part of a three-part concatenation. */
  lemma ConcatIndex<T>(all: seq<T>, a: seq<T>, b: seq<T>, c: seq<T>, n: nat, q: nat)
    requires all == a + (b + c) && |a| == n && q < |b|
    ensures n + q < |all| && all[n + q] == b[q]
  {
  }

  /** The documents of the pages around one page, and that page's own, in order. */
  lemma ChunksAround(before: seq<PageRecord>, page: PageRecord, after: seq<PageRecord>,
                     split: string -> seq<string>)
    ensures Chunks(before + ([page] + after), split)
         == Chunks(before, split) + (Wrap(split(page.content), page) + Chunks(after, split))
  {
    ChunksAppend(before, [page] + after, split);
    ChunksAppend([page], after, split);
    ChunksSnoc([], page, split);
  }

  /** A page the splitter makes nothing of contributes no documents and changes nothing else. */
  lemma ChunksSkipEmptyPage(before: seq<PageRecord>, page: PageRecord, after: seq<PageRecord>,
                            split: string -> seq<string>)
    requires split(page.content) == []
    ensures Chunks(before + [page] + after, split) == Chunks(before + after, split)
  {
    ChunksAppend(before + [page], after, split);
    ChunksSnoc(before, page, split);
    ChunksAppend(before, after, split);
  }

  /** The whole processing of a PDF: its page records, chunked. */
  method ProcessPdf(pages: seq<RawPage>, filename: string, split: string -> seq<string>)
    returns (documents: seq<Document>)
    ensures documents == Chunks(Records(pages, filename), split)
  {
    var pagesContent := ExtractTextFromPdf(pages, filename);
    documents := SplitIntoChunks(pagesContent, split);
  }
}
