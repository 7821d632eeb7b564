/**
 * The ingestion side of the pipeline: page-text chunking, image extraction
 * bookkeeping, and upserting one record per page into the vector index.
 *
 * The PDF is abstracted as a sequence of pages, each with the text the PDF
 * library extracts (or `None`) and the embedded image objects; the embedding
 * service is a function parameter.
 */
module DocumentProcessing {
  import opened Wrappers
  import opened Text

  /** Directory the extracted images are written to. */
  const ImageDir: string := "extracted_images"

  /** Colour modes that are converted to "RGB" before saving: bilevel, greyscale, palette. */
  const ConvertedModes: seq<string> := ["1", "L", "P"]

  // ---------------------------------------------------------------------
  // The document
  // ---------------------------------------------------------------------

  datatype BBox = BBox(x0: real, top: real, x1: real, bottom: real)

  /** What processing an image's raw stream comes to: it is read, decoded,
   * converted and saved as PNG without error, the decoded image having some
   * colour mode, or one of those steps raises. A stream that decodes in a mode
   * the PNG writer cannot store (such as "CMYK") raises on saving, so it is
   * `Fails`. */
  datatype ImageStream = Succeeds(mode: string) | Fails

  /** An embedded image object: its "stream" entry if it has one, and its
   * bounding box if the PDF gives one. */
  datatype ImageObject = ImageObject(stream: Option<ImageStream>, bbox: Option<BBox>)

  datatype Page = Page(text: Option<string>, images: seq<ImageObject>)

  type Document = seq<Page>

  // ---------------------------------------------------------------------
  // Text chunks
  // ---------------------------------------------------------------------

  datatype TextChunk = TextChunk(page: nat, text: string)

  /** Python truthiness of the extracted text: neither `None` nor "". */
  predicate HasText(text: Option<string>) {
    text.Some? && text.value != ""
  }

  /** The chunks of a document: one per page with text, in page order. */
  function TextChunks(doc: Document): seq<TextChunk>
  {
    if doc == [] then []
    else
      var n := |doc| - 1;
      TextChunks(doc[..n]) + if HasText(doc[n].text) then [TextChunk(n, doc[n].text.value)] else []
  }

  /** Every chunk names a page of the document that has text, and carries
   * that page's text unchanged. */
  lemma {:induction false} TextChunksSound(doc: Document)
    ensures forall k :: 0 <= k < |TextChunks(doc)| ==>
      var c := TextChunks(doc)[k];
      c.page < |doc| && HasText(doc[c.page].text) && doc[c.page].text.value == c.text
  {
    if doc != [] {
      var n := |doc| - 1;
      TextChunksSound(doc[..n]);
    }
  }

  /** Chunk page numbers strictly increase. */
  lemma {:induction false} TextChunksIncreasing(doc: Document)
    ensures forall k, l :: 0 <= k < l < |TextChunks(doc)| ==> TextChunks(doc)[k].page < TextChunks(doc)[l].page
  {
    if doc != [] {
      var n := |doc| - 1;
      TextChunksIncreasing(doc[..n]);
      TextChunksSound(doc[..n]);
    }
  }

  /** Every page with text contributes its chunk. */
  lemma {:induction false} TextChunksComplete(doc: Document)
    ensures forall i :: 0 <= i < |doc| && HasText(doc[i].text) ==> TextChunk(i, doc[i].text.value) in TextChunks(doc)
  {
    if doc != [] {
      var n := |doc| - 1;
      TextChunksComplete(doc[..n]);
      forall i | 0 <= i < n && HasText(doc[i].text)
        ensures TextChunk(i, doc[i].text.value) in TextChunks(doc)
      {
        assert doc[..n][i] == doc[i];
      }
    }
  }

  /** Reads the text of every page; a page whose text is `None` or "" is skipped. */
  method ExtractText(doc: Document) returns (chunks: seq<TextChunk>)
    ensures chunks == TextChunks(doc)
  {
    chunks := [];
    for i := 0 to |doc|
      invariant chunks == TextChunks(doc[..i])
    {
      assert doc[..i + 1][..i] == doc[..i];
      var text := doc[i].text;
      if text.Some? && text.value != "" {
        chunks := chunks + [TextChunk(i, text.value)];
      }
    }
    assert doc[..|doc|] == doc;
  }

  // ---------------------------------------------------------------------
  // Image file names
  // ---------------------------------------------------------------------

  /** The file an image is saved to: `extracted_images/page_{page}_img_{index}.png`. */
  function ImagePath(page: nat, index: nat): (path: string)
    ensures ParseImagePath(path) == Some((page, index))
    ensures ',' !in path
  {
    var prefix := ImageDir + "/page_";
    var p := NatToString(page);
    var suffix := "_img_" + NatToString(index) + ".png";
    assert suffix[0] == '_';
    DigitPrefixOf(p, suffix);
    assert (p + suffix)[|p|..] == suffix;
    ParseIndexSuffixRoundTrip(index);
    ParseNatToString(page);
    assert (prefix + (p + suffix))[|prefix|..] == p + suffix;
    DigitsPathHasNoComma(p, NatToString(index));
    prefix + (p + suffix)
  }

  /** Recovers the page and image index from a file name built by ImagePath. */
  function ParseImagePath(path: string): Option<(nat, nat)>
  {
    var prefix := ImageDir + "/page_";
    if !(prefix <= path) then None
    else
      var afterPrefix := path[|prefix|..];
      var page := DigitPrefix(afterPrefix);
      var index := ParseIndexSuffix(afterPrefix[|page|..]);
      if page == [] || index.None? then None
      else Some((ParseNat(page), index.value))
  }

  /** Parses the `_img_{index}.png` that follows the page number. */
  function ParseIndexSuffix(s: string): Option<nat>
  {
    if !("_img_" <= s) then None
    else
      var index := DigitPrefix(s[5..]);
      if index == [] || s[5..][|index|..] != ".png" then None
      else Some(ParseNat(index))
  }

  lemma ParseIndexSuffixRoundTrip(index: nat)
    ensures ParseIndexSuffix("_img_" + NatToString(index) + ".png") == Some(index)
  {
    var q := NatToString(index);
    var s := "_img_" + q + ".png";
    assert s[5..] == q + ".png";
    DigitPrefixOf(q, ".png");
    assert (q + ".png")[|q|..] == ".png";
    ParseNatToString(index);
  }

  /** Distinct (page, index) pairs are saved under distinct file names. */
  lemma ImagePathInjective(page: nat, index: nat, page': nat, index': nat)
    ensures ImagePath(page, index) == ImagePath(page', index') ==> page == page' && index == index'
  {
    assert ParseImagePath(ImagePath(page, index)) == Some((page, index));
    assert ParseImagePath(ImagePath(page', index')) == Some((page', index'));
  }

  /** A file name built from digit strings contains no comma. */
  lemma DigitsPathHasNoComma(p: string, q: string)
    requires AllDigits(p) && AllDigits(q)
    ensures ',' !in (ImageDir + "/page_") + (p + ("_img_" + q + ".png"))
  {
    assert ',' !in p && ',' !in q by {
      assert forall k :: 0 <= k < |p| ==> IsDigit(p[k]);
      assert forall k :: 0 <= k < |q| ==> IsDigit(q[k]);
    }
    var suffix := "_img_" + q + ".png";
    assert ',' !in suffix;
    assert ',' !in p + suffix;
  }

  // ---------------------------------------------------------------------
  // Image extraction
  // ---------------------------------------------------------------------

  /** Colour mode the image is saved in: bilevel, greyscale and palette
   * images are converted to RGB, every other mode is kept. */
  function NormaliseMode(mode: string): (r: string)
    ensures r !in ConvertedModes
    ensures mode in ConvertedModes ==> r == "RGB"
    ensures mode !in ConvertedModes ==> r == mode
  {
    if mode in ConvertedModes then "RGB" else mode
  }

  lemma NormaliseModeIdempotent(mode: string)
    ensures NormaliseMode(NormaliseMode(mode)) == NormaliseMode(mode)
  {
  }

  datatype ImageMeta = ImageMeta(page: nat, imagePath: string, bbox: Option<BBox>)

  /** A file written into the image directory, with the colour mode it was saved in. */
  datatype SavedFile = SavedFile(path: string, mode: string)

  /** The result of processing one image object. */
  datatype ImageOutcome = Saved(meta: ImageMeta, mode: string) | NoStream | Failed

  /** The image has a stream whose processing succeeds. */
  predicate Extractable(img: ImageObject) {
    img.stream.Some? && img.stream.value.Succeeds?
  }

  /** Processing of the `index`-th image of page `page`. */
  function ProcessImage(page: nat, index: nat, img: ImageObject): (r: ImageOutcome)
    ensures r.NoStream? <==> img.stream.None?
    ensures r.Saved? <==> Extractable(img)
    ensures r.Saved? ==> r.meta.page == page && r.meta.bbox == img.bbox && r.mode !in ConvertedModes
    ensures r.Saved? ==> r.meta.imagePath == ImagePath(page, index) && r.mode == NormaliseMode(img.stream.value.mode)
    ensures r.Saved? ==> ParseImagePath(r.meta.imagePath) == Some((page, index))
  {
    match img.stream
    case None => NoStream
    case Some(Fails) => Failed
    case Some(Succeeds(mode)) =>
      Saved(ImageMeta(page, ImagePath(page, index), img.bbox), NormaliseMode(mode))
  }

  function PageOutcomes(page: nat, images: seq<ImageObject>): seq<ImageOutcome>
  {
    seq(|images|, j requires 0 <= j < |images| => ProcessImage(page, j, images[j]))
  }

  /** The outcome of every image of the document, page by page, in order. */
  function Outcomes(doc: Document): seq<ImageOutcome>
  {
    if doc == [] then []
    else Outcomes(doc[..|doc| - 1]) + PageOutcomes(|doc| - 1, doc[|doc| - 1].images)
  }

  function SavedMetadata(outcomes: seq<ImageOutcome>): seq<ImageMeta>
  {
    if outcomes == [] then []
    else
      var last := outcomes[|outcomes| - 1];
      SavedMetadata(outcomes[..|outcomes| - 1]) + if last.Saved? then [last.meta] else []
  }

  function SavedFiles(outcomes: seq<ImageOutcome>): seq<SavedFile>
  {
    if outcomes == [] then []
    else
      var last := outcomes[|outcomes| - 1];
      SavedFiles(outcomes[..|outcomes| - 1]) + if last.Saved? then [SavedFile(last.meta.imagePath, last.mode)] else []
  }

  /** The metadata list extraction returns for a document. */
  function ImageMetadata(doc: Document): seq<ImageMeta>
  {
    SavedMetadata(Outcomes(doc))
  }

  /** The files extraction writes for a document. */
  function ImageFiles(doc: Document): seq<SavedFile>
  {
    SavedFiles(Outcomes(doc))
  }

  /** Every outcome comes from some image of the document. */
  lemma {:induction false} OutcomesSound(doc: Document)
    ensures forall o :: o in Outcomes(doc) ==>
      exists i, j :: 0 <= i < |doc| && 0 <= j < |doc[i].images| && o == ProcessImage(i, j, doc[i].images[j])
  {
    if doc != [] {
      var n := |doc| - 1;
      OutcomesSound(doc[..n]);
      forall o | o in Outcomes(doc)
        ensures exists i, j :: 0 <= i < |doc| && 0 <= j < |doc[i].images| && o == ProcessImage(i, j, doc[i].images[j])
      {
        if o in Outcomes(doc[..n]) {
          var i, j :| 0 <= i < |doc[..n]| && 0 <= j < |doc[..n][i].images| && o == ProcessImage(i, j, doc[..n][i].images[j]);
          assert doc[..n][i] == doc[i];
        } else {
          var j :| 0 <= j < |doc[n].images| && PageOutcomes(n, doc[n].images)[j] == o;
        }
      }
    }
  }

  /** Every image of the document is processed: a failing or stream-less
   * image does not stop the ones after it. */
  lemma {:induction false} OutcomesComplete(doc: Document)
    ensures forall i, j :: 0 <= i < |doc| && 0 <= j < |doc[i].images| ==> ProcessImage(i, j, doc[i].images[j]) in Outcomes(doc)
  {
    if doc != [] {
      var n := |doc| - 1;
      OutcomesComplete(doc[..n]);
      forall i, j | 0 <= i < |doc| && 0 <= j < |doc[i].images|
        ensures ProcessImage(i, j, doc[i].images[j]) in Outcomes(doc)
      {
        if i < n {
          assert doc[..n][i] == doc[i];
        } else {
          assert PageOutcomes(n, doc[n].images)[j] == ProcessImage(i, j, doc[i].images[j]);
        }
      }
    }
  }

  lemma {:induction false} SavedMetadataMembers(outcomes: seq<ImageOutcome>)
    ensures forall m :: m in SavedMetadata(outcomes) <==> exists o :: o in outcomes && o.Saved? && o.meta == m
  {
    if outcomes != [] {
      var n := |outcomes| - 1;
      SavedMetadataMembers(outcomes[..n]);
      assert outcomes == outcomes[..n] + [outcomes[n]];
    }
  }

  lemma {:induction false} SavedFilesMembers(outcomes: seq<ImageOutcome>)
    ensures forall f :: f in SavedFiles(outcomes) <==>
      exists o :: o in outcomes && o.Saved? && f == SavedFile(o.meta.imagePath, o.mode)
  {
    if outcomes != [] {
      var n := |outcomes| - 1;
      SavedFilesMembers(outcomes[..n]);
      assert outcomes == outcomes[..n] + [outcomes[n]];
    }
  }

  /** Each metadata entry describes an extractable image of its own page, saved
   * under that image's file name. */
  lemma ImageMetadataSound(doc: Document)
    ensures forall m :: m in ImageMetadata(doc) ==>
      m.page < |doc| &&
      exists j :: 0 <= j < |doc[m.page].images| && Extractable(doc[m.page].images[j]) &&
        m.imagePath == ImagePath(m.page, j) && m.bbox == doc[m.page].images[j].bbox
  {
    OutcomesSound(doc);
    SavedMetadataMembers(Outcomes(doc));
  }

  /** An extractable image gets its metadata entry and its file. */
  lemma ExtractableImageSaved(doc: Document, i: nat, j: nat)
    requires i < |doc| && j < |doc[i].images| && Extractable(doc[i].images[j])
    ensures ImageMeta(i, ImagePath(i, j), doc[i].images[j].bbox) in ImageMetadata(doc)
    ensures SavedFile(ImagePath(i, j), NormaliseMode(doc[i].images[j].stream.value.mode)) in ImageFiles(doc)
  {
    var o := ProcessImage(i, j, doc[i].images[j]);
    OutcomesComplete(doc);
    assert o in Outcomes(doc);
    SavedMetadataMembers(Outcomes(doc));
    SavedFilesMembers(Outcomes(doc));
  }

  /** An image gets a metadata entry, and its file is written in a mode that
   * is not bilevel, greyscale or palette, exactly when its processing succeeds. */
  lemma ImageExtractedIff(doc: Document, i: nat, j: nat)
    requires i < |doc| && j < |doc[i].images|
    ensures (exists m :: m in ImageMetadata(doc) && m.imagePath == ImagePath(i, j)) <==> Extractable(doc[i].images[j])
    ensures Extractable(doc[i].images[j]) ==>
      ImageMeta(i, ImagePath(i, j), doc[i].images[j].bbox) in ImageMetadata(doc) &&
      SavedFile(ImagePath(i, j), NormaliseMode(doc[i].images[j].stream.value.mode)) in ImageFiles(doc)
  {
    if Extractable(doc[i].images[j]) {
      ExtractableImageSaved(doc, i, j);
    }
    if m :| m in ImageMetadata(doc) && m.imagePath == ImagePath(i, j) {
      ImageMetadataSound(doc);
      var j' :| 0 <= j' < |doc[m.page].images| && Extractable(doc[m.page].images[j']) &&
        m.imagePath == ImagePath(m.page, j');
      ImagePathInjective(i, j, m.page, j');
    }
  }

  /** No file is written in a bilevel, greyscale or palette mode. */
  lemma ImageFilesNormalised(doc: Document)
    ensures forall f :: f in ImageFiles(doc) ==> f.mode !in ConvertedModes
  {
    OutcomesSound(doc);
    SavedFilesMembers(Outcomes(doc));
  }

  /** Appending one outcome appends its entry, if saved, to the metadata and the files. */
  lemma SavedStep(outcomes: seq<ImageOutcome>, o: ImageOutcome)
    ensures SavedMetadata(outcomes + [o]) == SavedMetadata(outcomes) + if o.Saved? then [o.meta] else []
    ensures SavedFiles(outcomes + [o]) == SavedFiles(outcomes) + if o.Saved? then [SavedFile(o.meta.imagePath, o.mode)] else []
  {
    assert (outcomes + [o])[..|outcomes|] == outcomes;
  }

  /** Concatenating outcome lists concatenates their metadata and their files. */
  lemma {:induction false} SavedAppend(a: seq<ImageOutcome>, b: seq<ImageOutcome>)
    ensures SavedMetadata(a + b) == SavedMetadata(a) + SavedMetadata(b)
    ensures SavedFiles(a + b) == SavedFiles(a) + SavedFiles(b)
  {
    if b == [] {
      assert a + b == a;
    } else {
      var n := |b| - 1;
      assert (a + b)[..|a + b| - 1] == a + b[..n];
      SavedAppend(a, b[..n]);
    }
  }

  /** Walks the images of one page, saving the extractable ones and skipping
   * those without a stream or whose processing fails. */
  method ExtractPageImages(page: nat, images: seq<ImageObject>) returns (metadata: seq<ImageMeta>, files: seq<SavedFile>)
    ensures metadata == SavedMetadata(PageOutcomes(page, images))
    ensures files == SavedFiles(PageOutcomes(page, images))
  {
    metadata, files := [], [];
    for j := 0 to |images|
      invariant metadata == SavedMetadata(PageOutcomes(page, images[..j]))
      invariant files == SavedFiles(PageOutcomes(page, images[..j]))
    {
      ghost var outcome := ProcessImage(page, j, images[j]);
      assert PageOutcomes(page, images[..j + 1]) == PageOutcomes(page, images[..j]) + [outcome];
      SavedStep(PageOutcomes(page, images[..j]), outcome);
      var img := images[j];
      match img.stream {
        case None =>
        case Some(Fails) =>
        case Some(Succeeds(mode)) =>
          var savedMode := NormaliseMode(mode);
          var path := ImagePath(page, j);
          files := files + [SavedFile(path, savedMode)];
          metadata := metadata + [ImageMeta(page, path, img.bbox)];
      }
    }
    assert images[..|images|] == images;
  }

  /** Walks every page of the document, extracting its images. */
  method ExtractImages(doc: Document) returns (metadata: seq<ImageMeta>, files: seq<SavedFile>)
    ensures metadata == ImageMetadata(doc)
    ensures files == ImageFiles(doc)
  {
    metadata, files := [], [];
    for i := 0 to |doc|
      invariant metadata == SavedMetadata(Outcomes(doc[..i]))
      invariant files == SavedFiles(Outcomes(doc[..i]))
    {
      var pageMetadata, pageFiles := ExtractPageImages(i, doc[i].images);
      assert doc[..i + 1][..i] == doc[..i];
      SavedAppend(Outcomes(doc[..i]), PageOutcomes(i, doc[i].images));
      metadata, files := metadata + pageMetadata, files + pageFiles;
    }
    assert doc[..|doc|] == doc;
  }

  // ---------------------------------------------------------------------
  // Ingestion into the vector index
  // ---------------------------------------------------------------------

  type Embedding = seq<real>

  datatype RecordMetadata = RecordMetadata(text: string, page: nat, images: seq<string>)

  datatype IndexRecord = IndexRecord(vector: Embedding, metadata: RecordMetadata)

  /** The id a page's record is stored under: `page-{page}`. */
  function PageId(page: nat): (id: string)
    ensures "page-" <= id && AllDigits(id[5..]) && ParseNat(id[5..]) == page
  {
    ParseNatToString(page);
    assert ("page-" + NatToString(page))[5..] == NatToString(page);
    "page-" + NatToString(page)
  }

  /** Distinct pages get distinct record ids. */
  lemma PageIdInjective(page: nat, page': nat)
    ensures PageId(page) == PageId(page') ==> page == page'
  {
    assert PageId(page)[5..] == NatToString(page);
    assert PageId(page')[5..] == NatToString(page');
    NatToStringInjective(page, page');
  }

  /** The paths of the extracted images of `page`, in extraction order. */
  function RelatedImages(images: seq<ImageMeta>, page: nat): (paths: seq<string>)
    ensures |paths| <= |images|
    ensures forall x :: x in paths ==> exists m :: m in images && m.page == page && m.imagePath == x
  {
    if images == [] then []
    else (if images[0].page == page then [images[0].imagePath] else []) + RelatedImages(images[1..], page)
  }

  lemma {:induction false} RelatedImagesMembers(images: seq<ImageMeta>, page: nat)
    ensures forall x :: x in RelatedImages(images, page) <==>
      exists k :: 0 <= k < |images| && images[k].page == page && images[k].imagePath == x
  {
    if images != [] {
      RelatedImagesMembers(images[1..], page);
      forall x | x in RelatedImages(images, page)
        ensures exists k :: 0 <= k < |images| && images[k].page == page && images[k].imagePath == x
      {
        if x !in RelatedImages(images[1..], page) {
          assert images[0].page == page && images[0].imagePath == x;
        } else {
          var k :| 0 <= k < |images[1..]| && images[1..][k].page == page && images[1..][k].imagePath == x;
          assert images[k + 1] == images[1..][k];
        }
      }
      forall k | 0 <= k < |images| && images[k].page == page
        ensures images[k].imagePath in RelatedImages(images, page)
      {
        if k > 0 {
          assert images[1..][k - 1] == images[k];
        }
      }
    }
  }

  /** Selecting a page's images keeps their order: it distributes over concatenation. */
  lemma {:induction false} RelatedImagesAppend(a: seq<ImageMeta>, b: seq<ImageMeta>, page: nat)
    ensures RelatedImages(a + b, page) == RelatedImages(a, page) + RelatedImages(b, page)
  {
    if a != [] {
      assert (a + b)[1..] == a[1..] + b;
      RelatedImagesAppend(a[1..], b, page);
    } else {
      assert a + b == b;
    }
  }

  /** The record stored for one chunk. */
  function ChunkRecord(chunk: TextChunk, images: seq<ImageMeta>, embed: string -> Embedding): (r: IndexRecord)
    ensures r.vector == embed(chunk.text)
    ensures r.metadata.text == chunk.text && r.metadata.page == chunk.page
    ensures forall x :: x in r.metadata.images <==>
      exists k :: 0 <= k < |images| && images[k].page == chunk.page && images[k].imagePath == x
  {
    RelatedImagesMembers(images, chunk.page);
    IndexRecord(embed(chunk.text), RecordMetadata(chunk.text, chunk.page, RelatedImages(images, chunk.page)))
  }

  /** The index after upserting the record of every chunk, in order, into `m`. */
  function Ingest(m: map<string, IndexRecord>, chunks: seq<TextChunk>, images: seq<ImageMeta>,
                  embed: string -> Embedding): map<string, IndexRecord>
  {
    if chunks == [] then m
    else
      var last := chunks[|chunks| - 1];
      Ingest(m, chunks[..|chunks| - 1], images, embed)[PageId(last.page) := ChunkRecord(last, images, embed)]
  }

  function WrittenIds(chunks: seq<TextChunk>): set<string>
  {
    set c | c in chunks :: PageId(c.page)
  }

  /** The ids ingestion writes are those of the chunks' pages. */
  lemma {:induction false} IngestWrittenIds(chunks: seq<TextChunk>, images: seq<ImageMeta>, embed: string -> Embedding)
    ensures Ingest(map[], chunks, images, embed).Keys == WrittenIds(chunks)
  {
    if chunks != [] {
      var n := |chunks| - 1;
      IngestWrittenIds(chunks[..n], images, embed);
      assert chunks == chunks[..n] + [chunks[n]];
      assert WrittenIds(chunks) == WrittenIds(chunks[..n]) + {PageId(chunks[n].page)};
    }
  }

  /** Ingestion overrides the old index with the records it writes. */
  lemma {:induction false} IngestOverrides(m: map<string, IndexRecord>, chunks: seq<TextChunk>,
                                         images: seq<ImageMeta>, embed: string -> Embedding)
    ensures Ingest(m, chunks, images, embed) == m + Ingest(map[], chunks, images, embed)
  {
    if chunks != [] {
      var n := |chunks| - 1;
      var id, record := PageId(chunks[n].page), ChunkRecord(chunks[n], images, embed);
      var written := Ingest(map[], chunks[..n], images, embed);
      IngestOverrides(m, chunks[..n], images, embed);
      assert Ingest(m, chunks, images, embed) == (m + written)[id := record];
      assert Ingest(map[], chunks, images, embed) == written[id := record];
      assert (m + written)[id := record] == m + written[id := record];
    }
  }

  /** Ids that ingestion does not write keep their old records, and no other id appears. */
  lemma IngestFrame(m: map<string, IndexRecord>, chunks: seq<TextChunk>, images: seq<ImageMeta>,
                    embed: string -> Embedding)
    ensures Ingest(m, chunks, images, embed).Keys == m.Keys + WrittenIds(chunks)
    ensures forall id :: id in m && id !in WrittenIds(chunks) ==> Ingest(m, chunks, images, embed)[id] == m[id]
  {
    IngestOverrides(m, chunks, images, embed);
    IngestWrittenIds(chunks, images, embed);
  }

  /** When the chunks name distinct pages, each page's id holds that chunk's record. */
  lemma {:induction false} IngestRecords(m: map<string, IndexRecord>, chunks: seq<TextChunk>,
                                         images: seq<ImageMeta>, embed: string -> Embedding)
    requires forall k, l :: 0 <= k < l < |chunks| ==> chunks[k].page != chunks[l].page
    ensures forall c :: c in chunks ==>
      PageId(c.page) in Ingest(m, chunks, images, embed) &&
      Ingest(m, chunks, images, embed)[PageId(c.page)] == ChunkRecord(c, images, embed)
  {
    if chunks != [] {
      var n := |chunks| - 1;
      IngestRecords(m, chunks[..n], images, embed);
      forall c | c in chunks
        ensures PageId(c.page) in Ingest(m, chunks, images, embed)
        ensures Ingest(m, chunks, images, embed)[PageId(c.page)] == ChunkRecord(c, images, embed)
      {
        if c != chunks[n] {
          var k :| 0 <= k < |chunks| && chunks[k] == c;
          assert chunks[..n][k] == c;
          PageIdInjective(c.page, chunks[n].page);
        }
      }
    }
  }

  /** Ingesting the same chunks a second time leaves what the second run alone
   * would leave, even if the embeddings differ between runs; with the same
   * embeddings, ingesting twice is ingesting once. */
  lemma IngestIdempotent(m: map<string, IndexRecord>, chunks: seq<TextChunk>, images: seq<ImageMeta>,
                         embed: string -> Embedding, embed': string -> Embedding)
    ensures Ingest(Ingest(m, chunks, images, embed), chunks, images, embed') == Ingest(m, chunks, images, embed')
  {
    var w := Ingest(map[], chunks, images, embed);
    var w' := Ingest(map[], chunks, images, embed');
    IngestOverrides(m, chunks, images, embed);
    IngestOverrides(m + w, chunks, images, embed');
    IngestOverrides(m, chunks, images, embed');
    IngestWrittenIds(chunks, images, embed);
    IngestWrittenIds(chunks, images, embed');
    assert (m + w) + w' == m + w' by {
      assert ((m + w) + w').Keys == (m + w').Keys;
    }
  }

  /** The vector index: records keyed by id, each holding an embedding and metadata. */
  class VectorIndex {
    var records: map<string, IndexRecord>

    constructor (initial: map<string, IndexRecord>)
      ensures records == initial
    {
      records := initial;
    }

    /** Stores the record under `id`, replacing any record already there. */
    method Upsert(id: string, vector: Embedding, metadata: RecordMetadata)
      modifies this
      ensures records == old(records)[id := IndexRecord(vector, metadata)]
    {
      records := records[id := IndexRecord(vector, metadata)];
    }
  }

  /** Upserts one record per chunk, under `page-{page}`, with the chunk's text
   * and the paths of the images extracted from the same page. */
  method StoreData(index: VectorIndex, chunks: seq<TextChunk>, images: seq<ImageMeta>, embed: string -> Embedding)
    modifies index
    ensures index.records == Ingest(old(index.records), chunks, images, embed)
  {
    for k := 0 to |chunks|
      invariant index.records == Ingest(old(index.records), chunks[..k], images, embed)
    {
      assert chunks[..k + 1][..k] == chunks[..k];
      var pageNum, chunk := chunks[k].page, chunks[k].text;
      var embedding := embed(chunk);
      var related := RelatedImages(images, pageNum);
      var metadata := RecordMetadata(chunk, pageNum, related);
      index.Upsert(PageId(pageNum), embedding, metadata);
    }
    assert chunks[..|chunks|] == chunks;
  }

  /** The index a whole ingestion run leaves behind. */
  function Ingested(m: map<string, IndexRecord>, doc: Document, embed: string -> Embedding): map<string, IndexRecord>
  {
    Ingest(m, TextChunks(doc), ImageMetadata(doc), embed)
  }

  /** Extracts the text and the images of a document and stores them. */
  method RunPipeline(index: VectorIndex, doc: Document, embed: string -> Embedding) returns (files: seq<SavedFile>)
    modifies index
    ensures index.records == Ingested(old(index.records), doc, embed)
    ensures files == ImageFiles(doc)
  {
    var chunks := ExtractText(doc);
    var metadata;
    metadata, files := ExtractImages(doc);
    StoreData(index, chunks, metadata, embed);
  }

  /** After ingestion, the record of every page with text holds that page's
   * text, and its image list holds exactly the files extracted from that
   * same page. */
  lemma PipelinePageAssociation(m: map<string, IndexRecord>, doc: Document, embed: string -> Embedding, p: nat)
    requires p < |doc| && HasText(doc[p].text)
    ensures PageId(p) in Ingested(m, doc, embed)
    ensures Ingested(m, doc, embed)[PageId(p)].metadata == RecordMetadata(doc[p].text.value, p, RelatedImages(ImageMetadata(doc), p))
    ensures forall x :: x in Ingested(m, doc, embed)[PageId(p)].metadata.images <==>
      exists j :: 0 <= j < |doc[p].images| && Extractable(doc[p].images[j]) && x == ImagePath(p, j)
  {
    var chunks := TextChunks(doc);
    TextChunksIncreasing(doc);
    TextChunksComplete(doc);
    IngestRecords(m, chunks, ImageMetadata(doc), embed);
    assert TextChunk(p, doc[p].text.value) in chunks;
    var images := RelatedImages(ImageMetadata(doc), p);
    RelatedImagesMembers(ImageMetadata(doc), p);
    ImageMetadataSound(doc);
    forall j | 0 <= j < |doc[p].images| && Extractable(doc[p].images[j])
      ensures ImagePath(p, j) in images
    {
      ImageExtractedIff(doc, p, j);
      var m := ImageMeta(p, ImagePath(p, j), doc[p].images[j].bbox);
      var k :| 0 <= k < |ImageMetadata(doc)| && ImageMetadata(doc)[k] == m;
    }
  }

  /** Running the whole ingestion a second time on the same document leaves
   * what the second run alone would leave, whatever the first run's embeddings;
   * with the same embeddings, running it twice is running it once. */
  lemma PipelineIdempotent(m: map<string, IndexRecord>, doc: Document, embed: string -> Embedding,
                           embed': string -> Embedding)
    ensures Ingested(Ingested(m, doc, embed), doc, embed') == Ingested(m, doc, embed')
  {
    IngestIdempotent(m, TextChunks(doc), ImageMetadata(doc), embed, embed');
  }
}
