# UserGuideAI retrieval pipeline — Dafny model

UserGuideAI answers questions about an application's user guide. An ingestion
script reads a PDF, keeps the text of every page that has some, saves the
page's embedded images as PNG files, and upserts one record per page with text into a
Pinecone index. A page without text gets no record, though its images are
still saved. A Flask endpoint `/ask` embeds the question, fetches the top
three matches, folds their metadata into text chunks and a de-duplicated list
of image paths, builds a prompt, and returns the chat model's answer with the
images.

This project models the data-shaping core between those service calls:

- `text.dfy` (module `Text`): decimal rendering of indices (the f-string
  `{n}`) with its parser, Python's `str.join`, and a `split` that undoes it.
- `wrappers.dfy` (module `Wrappers`): `Option`, for Python's `None`-or-value.
- `document_processing.dfy` (module `DocumentProcessing`): `extract_text`,
  `extract_images`, `store_data_in_pinecone` and the `__main__` pipeline. A
  document is a sequence of pages. Each page has its extracted text (`None`
  or a string) and its embedded image objects. The Pinecone index is a class
  `VectorIndex` whose `records` map from id to record is updated by
  `Upsert`.
- `backend.dfy` (module `Backend`): `find_relevant_content`, the prompt of
  `generate_response_with_gpt`, and `handle_user_query`.

The loops of the source are methods (`ExtractText`, `ExtractImages`,
`StoreData`, `FindRelevantContent`, `Deduplicate`). The first three are proved
equal to a specification function (`TextChunks`, `ImageMetadata`/`ImageFiles`,
`Ingest`), and the lemmas state the promised properties of those functions.
`FindRelevantContent` returns exactly `RelevantChunks` of the matches; its
images are the de-duplication of `CollectedImages`. `Deduplicate` is specified
by its postconditions alone: the same elements, no duplicates, and no longer
than its input.

External services are parameters:

- the embedding is `embed: string -> Embedding`;
- embedding plus nearest-neighbour search is `search: (string, nat) -> seq<Match>`;
- the chat completion is `chat: seq<ChatMessage> -> string`.

An image object's stream is abstracted to its outcome: `Succeeds(mode)` when
it is read, decoded, converted and saved without error (the decoded image
having colour mode `mode`), or `Fails` for any exception raised by one of
those steps.

## Model

| member | source | states |
|---|---|---|
| `Text.NatToString` | document_processing.py:52 | the `{i}` rendering of an index is a non-empty string of decimal digits with no leading zero |
| `Text.ParseNatToString` | document_processing.py:52 | parsing the decimal rendering of an index gives the index back |
| `Text.NatToStringInjective` | document_processing.py:52 | distinct indices render differently |
| `Text.Join` | backend.py:50 | `sep.join` of no parts is "", of one part is that part |
| `Text.JoinAppend` | backend.py:50 | joining one more part adds the separator and that part at the end, for any non-empty list of parts |
| `Text.SplitJoin` | backend.py:63 | splitting `sep.join(parts)` on `sep` gives the parts back, for a non-empty list of parts none of which contains the separator's first character |
| `DocumentProcessing.TextChunksSound` | document_processing.py:25-29 | every chunk names a page of the document whose text is truthy, and carries that text unchanged |
| `DocumentProcessing.TextChunksIncreasing` | document_processing.py:25-29 | chunk page indices strictly increase |
| `DocumentProcessing.TextChunksComplete` | document_processing.py:25-29 | every page with truthy text yields the chunk (its index, its text) |
| `DocumentProcessing.ExtractText` | document_processing.py:20-32 | the loop returns exactly `TextChunks(doc)`, so by the three lemmas above: one chunk per page with non-empty text, in page order, tagged with the page index; `None` or "" pages contribute nothing |
| `DocumentProcessing.ImagePath` | document_processing.py:52 | the file name `extracted_images/page_{i}_img_{j}.png` can be parsed back to `(i, j)`, and contains no comma |
| `DocumentProcessing.ImagePathInjective` | document_processing.py:52 | distinct (page, index) pairs get distinct file names |
| `DocumentProcessing.NormaliseMode` | document_processing.py:49-50 | modes "1", "L", "P" become "RGB"; every other mode is kept; the result is never "1", "L" or "P" |
| `DocumentProcessing.NormaliseModeIdempotent` | document_processing.py:49-50 | normalising a normalised mode changes nothing |
| `DocumentProcessing.ProcessImage` | document_processing.py:42-68 | no stream gives `NoStream`; an image is saved exactly when its processing succeeds; a saved image carries its page, its bbox, the file name `ImagePath(page, index)` (which parses back to (page, index)), and the mode `NormaliseMode` gives for its decoded mode, never "1", "L" or "P" |
| `DocumentProcessing.OutcomesSound` | document_processing.py:40-41 | every outcome comes from processing some image of some page |
| `DocumentProcessing.OutcomesComplete` | document_processing.py:40-68 | every image of every page is processed, whatever happened to earlier images |
| `DocumentProcessing.SavedMetadataMembers` | document_processing.py:56-60 | a metadata entry exists exactly for each saved outcome |
| `DocumentProcessing.SavedFilesMembers` | document_processing.py:52-53 | a file is written exactly for each saved outcome, in its normalised mode |
| `DocumentProcessing.ImageMetadataSound` | document_processing.py:44-60 | each metadata entry describes an extractable image of its own page, under that image's file name, with its bbox |
| `DocumentProcessing.ExtractableImageSaved` | document_processing.py:44-60 | an image whose processing succeeds gets its metadata entry and its file in the normalised mode |
| `DocumentProcessing.ImageExtractedIff` | document_processing.py:41-68 | an image's file name appears in the metadata if and only if its processing succeeds; images with no stream or failing processing add nothing |
| `DocumentProcessing.ImageFilesNormalised` | document_processing.py:49-53 | no file is saved in mode "1", "L" or "P" |
| `DocumentProcessing.ExtractPageImages` | document_processing.py:41-68 | the loop over one page's images returns the metadata and files of that page's saved outcomes |
| `DocumentProcessing.ExtractImages` | document_processing.py:35-70 | the loop over pages returns `ImageMetadata(doc)` and writes `ImageFiles(doc)` |
| `DocumentProcessing.PageId` | document_processing.py:94 | the id is `page-` followed by the decimal digits of the page number, which parse back to it |
| `DocumentProcessing.PageIdInjective` | document_processing.py:94 | distinct pages are stored under distinct ids `page-{n}` |
| `DocumentProcessing.RelatedImages` | document_processing.py:86 | a page's image list is no longer than the metadata list, and every path in it is the path of a metadata entry of that page |
| `DocumentProcessing.RelatedImagesMembers` | document_processing.py:86 | a path is in a page's image list exactly when some metadata entry of that page has it |
| `DocumentProcessing.RelatedImagesAppend` | document_processing.py:86 | a page's image list keeps the metadata order |
| `DocumentProcessing.ChunkRecord` | document_processing.py:85-92 | a chunk's record has the chunk text's embedding, the chunk's text and page, and exactly the paths of the metadata entries of that page |
| `DocumentProcessing.IngestWrittenIds` | document_processing.py:84-94 | the ids ingestion writes are exactly `page-{n}` for the chunks' pages |
| `DocumentProcessing.IngestOverrides` | document_processing.py:84-94 | ingestion overrides the old index with the records it writes |
| `DocumentProcessing.IngestFrame` | document_processing.py:84-94 | ids not written keep their old records (stale pages are not purged) and no other id appears |
| `DocumentProcessing.IngestRecords` | document_processing.py:84-94 | for chunks of distinct pages, `page-{n}` holds the chunk's embedding, its text, page `n`, and the paths of page `n`'s images in order |
| `DocumentProcessing.IngestIdempotent` | document_processing.py:94 | ingesting the same chunks a second time leaves what the second run alone would leave, even with different embeddings; with the same embeddings, twice is the same as once |
| `DocumentProcessing.VectorIndex.constructor` | document_processing.py:13 | a handle on an index that holds the given records |
| `DocumentProcessing.VectorIndex.Upsert` | document_processing.py:94 | the record is stored under its id, replacing any record there; no other id changes |
| `DocumentProcessing.StoreData` | document_processing.py:82-95 | the index afterwards is `Ingest` of the old index: one upsert per chunk, in order |
| `DocumentProcessing.RunPipeline` | document_processing.py:99-103 | the pipeline leaves `Ingested(old index, doc)` and writes `ImageFiles(doc)` |
| `DocumentProcessing.PipelinePageAssociation` | document_processing.py:101-103 | after the pipeline, each page with text is stored with its text and page, and its image list holds exactly the files of that page's extractable images |
| `DocumentProcessing.PipelineIdempotent` | document_processing.py:101-103 | running the pipeline a second time on the same document leaves what the second run alone would leave, whatever the first run's embeddings; with the same embeddings, twice is the same as once |
| `Backend.RelevantChunksBound` | backend.py:33-36 | there are never more chunks than matches |
| `Backend.RelevantChunksMembers` | backend.py:33-36 | a string is a chunk exactly when some match's metadata text is that string |
| `Backend.RelevantChunksAppend` | backend.py:33-36 | chunks keep match order |
| `Backend.CollectedImagesMembers` | backend.py:37-38 | a path is collected exactly when some match's `images` lists it |
| `Backend.CollectedImagesAppend` | backend.py:37-38 | collected images keep match order |
| `Backend.EmptyMatchIgnored` | backend.py:33-38 | a match with neither text nor images changes neither output, wherever it stands in the list |
| `Backend.Deduplicate` | backend.py:45 | `list(set(xs))` has exactly the elements of `xs`, each once, in no promised order |
| `Backend.DistinctCardinality` | backend.py:45 | de-duplication never lengthens the list |
| `Backend.FindRelevantContent` | backend.py:17-45 | chunks are the match texts in match order, at most one per match; images are the union of the matches' image lists without duplicates; no matches gives both empty |
| `Backend.StoredRecordSurfaces` | backend.py:33-38 | a stored record returned as a match surfaces its text and every one of its image paths |
| `Backend.Context` | backend.py:50 | no texts give the empty context, one text gives that text |
| `Backend.ContextAppend` | backend.py:50 | each further text is added after a newline, whatever the texts contain |
| `Backend.ContextRoundTrip` | backend.py:50 | the context is "" with no texts; otherwise splitting it on newlines gives the texts back when none contains a newline |
| `Backend.ImageLine` | backend.py:63 | no images give "No relevant images found", one image gives its path |
| `Backend.ImageLineRoundTrip` | backend.py:63 | the image line is "No relevant images found" with no images; otherwise splitting it on ", " gives the paths back when none contains a comma |
| `Backend.ExtractedImageLineRoundTrip` | backend.py:63 | the image line of a non-empty list of extracted image file names always splits back into those names |
| `Backend.TemplateLayout` | backend.py:53-67 | each filled-in part of the template sits at its fixed offset |
| `Backend.TemplateHeadings` | backend.py:53-67 | each fixed heading of the template sits at its offset, and the closing text ends it |
| `Backend.BuildPrompt` | backend.py:53-67 | the prompt starts with the fixed heading and holds the query verbatim right after it; then come the "Relevant Documentation:" heading, the context, the images heading, the image line, and the closing instructions, each at its offset and nothing between them |
| `Backend.ChatRequest` | backend.py:70-74 | the request is exactly two turns: the system turn "You are a helpful assistant.", then the user turn whose content is the whole prompt `BuildPrompt(query, texts, images)`, which begins with the heading and the query |
| `Backend.GenerateResponse` | backend.py:48-76 | the answer is the chat model's reply to the system instruction and the prompt built from the query, the texts and the images |
| `Backend.HandleUserQuery` | backend.py:80-94 | a missing or empty query gets 400 `{"error": "Query is required"}` and only then; otherwise 200 with the chat reply and exactly the retrieved, de-duplicated images, which are also the images the prompt names |

## Left out

- frontend.py: a Streamlit page and an HTTP call; it renders and opens files only.
- The OpenAI embedding and chat-completion calls are function parameters (`embed`, `search`, `chat`). Their failures are not modelled: the parameters are total functions.
- The Pinecone nearest-neighbour query, its ranking and its `top_k` bound belong to the external service. `search` returns an arbitrary match list, and only the top-k value passed (3) is modelled.
- PDF parsing, image decoding and saving, and `os.makedirs` are I/O. Pages are optional strings plus image objects, and an image's stream is the outcome of processing it. Saved files are returned as a list of (path, mode) entries.
- Which colour modes PIL's PNG writer accepts is not modelled. A stream that decodes in a mode PNG cannot store (such as "CMYK") raises on `image.save`, is skipped by the source, and is a `Fails` stream in the model.
- A document that cannot be opened raises a fatal error in the source. The model takes the pages as given.
- Module-level client setup and `.env` loading are configuration only.
- Flask routing and JSON (de)serialisation are left out, and so is `app.run`.
- HandleUserQuery: the query is modelled as an optional string. A request without a JSON body (where the source raises), and non-string JSON query values (falsy ones get 400, truthy ones are passed on), are not modelled.
- `print` logging has no behavioural effect and is left out.
- Deduplicate: the order of `list(set(...))` follows string hashes, which CPython salts per process (`PYTHONHASHSEED`), so it can differ from one run to the next. The model promises no order, as the source does not.
- Each `upsert` is a separate call, so a failure part-way through a batch leaves the earlier pages written. Service failures are not modelled, so this partial state is not modelled either.
- Text.ParseNat, Text.DigitPrefix, Text.SplitBy, DocumentProcessing.ParseImagePath and DocumentProcessing.ParseIndexSuffix have no counterpart in the source. They are inverses, defined to state the round-trip and injectivity properties.
