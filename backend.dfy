/**
 * The query side of the pipeline: folding the index's matches into text
 * chunks and a de-duplicated image list, assembling the prompt for the
 * chat model, and the request handler of the `/ask` endpoint.
 *
 * The embedding call and the nearest-neighbour search are one function
 * parameter `search` (query text and top-k to matches); the chat completion
 * is a function parameter `chat` from the messages to the reply.
 */
module Backend {
  import opened Wrappers
  import opened Text
  import DocumentProcessing

  /** Number of matches requested from the index. */
  const TopK: nat := 3

  // ---------------------------------------------------------------------
  // Retrieval
  // ---------------------------------------------------------------------

  /** The metadata of one match; either field may be missing. */
  datatype MatchMetadata = MatchMetadata(text: Option<string>, images: Option<seq<string>>)

  datatype Match = Match(metadata: MatchMetadata)

  /** The texts of the matches that have one, in match order. */
  function RelevantChunks(matches: seq<Match>): seq<string>
  {
    if matches == [] then []
    else
      var last := matches[|matches| - 1].metadata;
      RelevantChunks(matches[..|matches| - 1]) + if last.text.Some? then [last.text.value] else []
  }

  /** The image lists of the matches that have one, concatenated in match order. */
  function CollectedImages(matches: seq<Match>): seq<string>
  {
    if matches == [] then []
    else
      var last := matches[|matches| - 1].metadata;
      CollectedImages(matches[..|matches| - 1]) + if last.images.Some? then last.images.value else []
  }

  /** There are never more chunks than matches. */
  lemma {:induction false} RelevantChunksBound(matches: seq<Match>)
    ensures |RelevantChunks(matches)| <= |matches|
  {
    if matches != [] {
      RelevantChunksBound(matches[..|matches| - 1]);
    }
  }

  /** A string is a relevant chunk exactly when some match carries it as its text. */
  lemma {:induction false} RelevantChunksMembers(matches: seq<Match>)
    ensures forall t :: t in RelevantChunks(matches) <==>
      exists k :: 0 <= k < |matches| && matches[k].metadata.text == Some(t)
  {
    if matches != [] {
      var n := |matches| - 1;
      RelevantChunksMembers(matches[..n]);
      forall t | (exists k :: 0 <= k < |matches| && matches[k].metadata.text == Some(t))
        ensures t in RelevantChunks(matches)
      {
        var k :| 0 <= k < |matches| && matches[k].metadata.text == Some(t);
        if k < n {
          assert matches[..n][k] == matches[k];
        }
      }
    }
  }

  /** Chunks keep match order: folding distributes over concatenation of match lists. */
  lemma {:induction false} RelevantChunksAppend(a: seq<Match>, b: seq<Match>)
    ensures RelevantChunks(a + b) == RelevantChunks(a) + RelevantChunks(b)
  {
    if b == [] {
      assert a + b == a;
    } else {
      var n := |b| - 1;
      assert (a + b)[..|a + b| - 1] == a + b[..n];
      RelevantChunksAppend(a, b[..n]);
    }
  }

  /** An image path is collected exactly when it is listed by some match. */
  lemma {:induction false} CollectedImagesMembers(matches: seq<Match>)
    ensures forall x :: x in CollectedImages(matches) <==>
      exists k :: 0 <= k < |matches| && matches[k].metadata.images.Some? && x in matches[k].metadata.images.value
  {
    if matches != [] {
      var n := |matches| - 1;
      CollectedImagesMembers(matches[..n]);
      forall x | (exists k :: 0 <= k < |matches| && matches[k].metadata.images.Some? && x in matches[k].metadata.images.value)
        ensures x in CollectedImages(matches)
      {
        var k :| 0 <= k < |matches| && matches[k].metadata.images.Some? && x in matches[k].metadata.images.value;
        if k < n {
          assert matches[..n][k] == matches[k];
        }
      }
    }
  }

  /** Images keep match order: collecting distributes over concatenation of match lists. */
  lemma {:induction false} CollectedImagesAppend(a: seq<Match>, b: seq<Match>)
    ensures CollectedImages(a + b) == CollectedImages(a) + CollectedImages(b)
  {
    if b == [] {
      assert a + b == a;
    } else {
      var n := |b| - 1;
      assert (a + b)[..|a + b| - 1] == a + b[..n];
      CollectedImagesAppend(a, b[..n]);
    }
  }

  /** A match with neither text nor images changes neither output, wherever it stands. */
  lemma EmptyMatchIgnored(a: seq<Match>, m: Match, b: seq<Match>)
    requires m.metadata.text.None? && m.metadata.images.None?
    ensures RelevantChunks(a + [m] + b) == RelevantChunks(a + b)
    ensures CollectedImages(a + [m] + b) == CollectedImages(a + b)
  {
    assert (a + [m])[..|a|] == a;
    RelevantChunksAppend(a + [m], b);
    RelevantChunksAppend(a, b);
    CollectedImagesAppend(a + [m], b);
    CollectedImagesAppend(a, b);
  }

  predicate NoDuplicates(s: seq<string>) {
    forall k, l :: 0 <= k < l < |s| ==> s[k] != s[l]
  }

  /** Python's `list(set(xs))`: the distinct elements of `xs`, in no particular order. */
  method Deduplicate(xs: seq<string>) returns (ys: seq<string>)
    ensures forall x :: x in ys <==> x in xs
    ensures NoDuplicates(ys)
    ensures |ys| <= |xs|
  {
    var remaining := set x | x in xs;
    ys := [];
    while remaining != {}
      invariant forall x :: x in xs <==> x in ys || x in remaining
      invariant forall x :: x in ys ==> x !in remaining && x in xs
      invariant NoDuplicates(ys)
      invariant |ys| + |remaining| == |set x | x in xs|
      decreases remaining
    {
      var x :| x in remaining;
      ys := ys + [x];
      remaining := remaining - {x};
    }
    DistinctCardinality(xs);
  }

  /** A sequence has at least as many elements as it has distinct ones. */
  lemma {:induction false} DistinctCardinality(xs: seq<string>)
    ensures |set x | x in xs| <= |xs|
  {
    if xs != [] {
      var n := |xs| - 1;
      DistinctCardinality(xs[..n]);
      assert (set x | x in xs) == (set x | x in xs[..n]) + {xs[n]} by {
        assert xs == xs[..n] + [xs[n]];
      }
    }
  }

  /** Embeds the query, fetches `topK` matches, and folds them into the text
   * chunks (in match order) and the de-duplicated image paths. */
  method FindRelevantContent(query: string, topK: nat, search: (string, nat) -> seq<Match>)
    returns (chunks: seq<string>, images: seq<string>)
    ensures chunks == RelevantChunks(search(query, topK))
    ensures |chunks| <= |search(query, topK)|
    ensures forall x :: x in images <==>
      exists k :: 0 <= k < |search(query, topK)| && search(query, topK)[k].metadata.images.Some? &&
        x in search(query, topK)[k].metadata.images.value
    ensures NoDuplicates(images)
  {
    var matches := search(query, topK);
    var collected := [];
    chunks := [];
    for k := 0 to |matches|
      invariant chunks == RelevantChunks(matches[..k])
      invariant collected == CollectedImages(matches[..k])
    {
      assert matches[..k + 1][..k] == matches[..k];
      var metadata := matches[k].metadata;
      if metadata.text.Some? {
        chunks := chunks + [metadata.text.value];
      }
      if metadata.images.Some? {
        collected := collected + metadata.images.value;
      }
    }
    assert matches[..|matches|] == matches;
    images := Deduplicate(collected);
    RelevantChunksBound(matches);
    CollectedImagesMembers(matches);
  }

  /** What a match returned for a stored record carries: the record's metadata. */
  function MatchOf(record: DocumentProcessing.IndexRecord): Match
  {
    Match(MatchMetadata(Some(record.metadata.text), Some(record.metadata.images)))
  }

  /** A record that comes back as a match surfaces its text and every one of its images. */
  lemma StoredRecordSurfaces(matches: seq<Match>, record: DocumentProcessing.IndexRecord)
    requires MatchOf(record) in matches
    ensures record.metadata.text in RelevantChunks(matches)
    ensures forall x :: x in record.metadata.images ==> x in CollectedImages(matches)
  {
    RelevantChunksMembers(matches);
    CollectedImagesMembers(matches);
    var k :| 0 <= k < |matches| && matches[k] == MatchOf(record);
  }

  // ---------------------------------------------------------------------
  // Prompt assembly
  // ---------------------------------------------------------------------

  const PromptHead: string :=
    "\n    You are an AI assistant that helps users understand how to use an application.\n" +
    "    Answer the following user query based on the provided documentation.\n\n    User Query: "
  const PromptBeforeContext: string := "\n\n    Relevant Documentation:\n    "
  const PromptBeforeImages: string := "\n\n    If applicable, include references to the following images:\n    "
  const PromptTail: string :=
    "\n\n    Provide a clear and concise answer preferably with bullet points or steps. \n" +
    "    Do not include paths to the images if they exist.\n    "
  const NoImagesMarker: string := "No relevant images found"
  const SystemInstruction: string := "You are a helpful assistant."

  /** The retrieved texts, one after the other, separated by newlines. */
  function Context(relevantText: seq<string>): (context: string)
    ensures relevantText == [] ==> context == ""
    ensures |relevantText| == 1 ==> context == relevantText[0]
  {
    Join("\n", relevantText)
  }

  /** Each further text is added after a newline, whatever the texts contain. */
  lemma ContextAppend(relevantText: seq<string>, t: string)
    requires relevantText != []
    ensures Context(relevantText + [t]) == Context(relevantText) + "\n" + t
  {
    JoinAppend("\n", relevantText, t);
  }

  /** The images, comma-separated, or the marker when there are none. */
  function ImageLine(images: seq<string>): (line: string)
    ensures images == [] ==> line == NoImagesMarker
    ensures |images| == 1 ==> line == images[0]
  {
    if images != [] then Join(", ", images) else NoImagesMarker
  }

  /** With no retrieved text the context is empty; otherwise, when no text
   * contains a newline, splitting the context on newlines gives the texts back. */
  lemma ContextRoundTrip(relevantText: seq<string>)
    ensures relevantText == [] ==> Context(relevantText) == ""
    ensures relevantText != [] && (forall k :: 0 <= k < |relevantText| ==> '\n' !in relevantText[k]) ==>
      SplitBy(Context(relevantText), "\n") == relevantText
  {
    if relevantText != [] && (forall k :: 0 <= k < |relevantText| ==> '\n' !in relevantText[k]) {
      SplitJoin("\n", relevantText);
    }
  }

  /** With no images the line is the marker; otherwise, when no path contains
   * a comma, splitting the line on ", " gives the paths back. */
  lemma ImageLineRoundTrip(images: seq<string>)
    ensures images == [] ==> ImageLine(images) == NoImagesMarker
    ensures images != [] && (forall k :: 0 <= k < |images| ==> ',' !in images[k]) ==>
      SplitBy(ImageLine(images), ", ") == images
  {
    if images != [] && (forall k :: 0 <= k < |images| ==> ',' !in images[k]) {
      SplitJoin(", ", images);
    }
  }

  /** Where each filled-in part lies in a template `h + q + b + c + i + l + t`. */
  lemma TemplateLayout(h: string, q: string, b: string, c: string, i: string, l: string, t: string)
    ensures var s := h + q + b + c + i + l + t;
      && h <= s
      && s[|h|..|h| + |q|] == q
      && s[|h| + |q| + |b|..|h| + |q| + |b| + |c|] == c
      && s[|h| + |q| + |b| + |c| + |i|..|h| + |q| + |b| + |c| + |i| + |l|] == l
  {
    var s := h + q + b + c + i + l + t;
    InfixAt(h, q, b + c + i + l + t);
    assert s == h + q + (b + c + i + l + t);
    InfixAt(h + q + b, c, i + l + t);
    assert s == h + q + b + c + (i + l + t);
    InfixAt(h + q + b + c + i, l, t);
  }

  /** Where each fixed heading lies in a template `h + q + b + c + i + l + t`. */
  lemma TemplateHeadings(h: string, q: string, b: string, c: string, i: string, l: string, t: string)
    ensures var s := h + q + b + c + i + l + t;
      && s[|h| + |q|..|h| + |q| + |b|] == b
      && s[|h| + |q| + |b| + |c|..|h| + |q| + |b| + |c| + |i|] == i
      && s[|s| - |t|..] == t
  {
    var p3 := h + q + b;
    var p5 := p3 + c + i;
    var p6 := p5 + l;
    SliceOfPrefix(p6, t, |h| + |q|, |p3|);
    SliceOfPrefix(p5, l, |h| + |q|, |p3|);
    SliceOfPrefix(p3 + c, i, |h| + |q|, |p3|);
    SliceOfPrefix(p3, c, |h| + |q|, |p3|);
    SliceOfPrefix(p6, t, |p3 + c|, |p5|);
    SliceOfPrefix(p5, l, |p3 + c|, |p5|);
  }

  /** The image line of extracted image paths splits back into those paths. */
  lemma ExtractedImageLineRoundTrip(images: seq<string>)
    requires images != []
    requires forall k :: 0 <= k < |images| ==> exists p: nat, j: nat :: images[k] == DocumentProcessing.ImagePath(p, j)
    ensures SplitBy(ImageLine(images), ", ") == images
  {
    forall k | 0 <= k < |images|
      ensures ',' !in images[k]
    {
      var p: nat, j: nat :| images[k] == DocumentProcessing.ImagePath(p, j);
    }
    ImageLineRoundTrip(images);
  }

  /** The prompt sent as the user turn. It holds the query verbatim, then the
   * context, then the image line, each after its fixed heading. */
  function BuildPrompt(userQuery: string, relevantText: seq<string>, images: seq<string>): (prompt: string)
    ensures |prompt| == |PromptHead| + |userQuery| + |PromptBeforeContext| + |Context(relevantText)| +
      |PromptBeforeImages| + |ImageLine(images)| + |PromptTail|
    ensures PromptHead <= prompt
    ensures var q := |PromptHead|;
      prompt[q..q + |userQuery|] == userQuery
    ensures var c := |PromptHead| + |userQuery| + |PromptBeforeContext|;
      prompt[c..c + |Context(relevantText)|] == Context(relevantText)
    ensures var i := |PromptHead| + |userQuery| + |PromptBeforeContext| + |Context(relevantText)| + |PromptBeforeImages|;
      prompt[i..i + |ImageLine(images)|] == ImageLine(images)
    ensures var b := |PromptHead| + |userQuery|;
      prompt[b..b + |PromptBeforeContext|] == PromptBeforeContext
    ensures var b := |PromptHead| + |userQuery| + |PromptBeforeContext| + |Context(relevantText)|;
      prompt[b..b + |PromptBeforeImages|] == PromptBeforeImages
    ensures prompt[|prompt| - |PromptTail|..] == PromptTail
  {
    var context := Context(relevantText);
    var imageLine := ImageLine(images);
    TemplateLayout(PromptHead, userQuery, PromptBeforeContext, context, PromptBeforeImages, imageLine, PromptTail);
    TemplateHeadings(PromptHead, userQuery, PromptBeforeContext, context, PromptBeforeImages, imageLine, PromptTail);
    PromptHead + userQuery + PromptBeforeContext + context + PromptBeforeImages + imageLine + PromptTail
  }

  datatype ChatMessage = ChatMessage(role: string, content: string)

  /** The two messages of the chat request: the fixed system instruction and the prompt. */
  function ChatRequest(userQuery: string, relevantText: seq<string>, images: seq<string>): (messages: seq<ChatMessage>)
    ensures |messages| == 2
    ensures messages[0] == ChatMessage("system", SystemInstruction)
    ensures messages[1] == ChatMessage("user", BuildPrompt(userQuery, relevantText, images))
    ensures messages[1].role == "user" && PromptHead + userQuery <= messages[1].content
  {
    var prompt := BuildPrompt(userQuery, relevantText, images);
    assert prompt[..|PromptHead| + |userQuery|] == PromptHead + userQuery;
    [ChatMessage("system", SystemInstruction), ChatMessage("user", prompt)]
  }

  /** The chat model's reply to the request built from the query, texts and images. */
  function GenerateResponse(userQuery: string, relevantText: seq<string>, images: seq<string>,
                            chat: seq<ChatMessage> -> string): (reply: string)
    ensures reply == chat([ChatMessage("system", SystemInstruction),
                           ChatMessage("user", BuildPrompt(userQuery, relevantText, images))])
  {
    var messages := ChatRequest(userQuery, relevantText, images);
    assert messages == [messages[0], messages[1]];
    chat(messages)
  }

  // ---------------------------------------------------------------------
  // The /ask endpoint
  // ---------------------------------------------------------------------

  /** The JSON body of a request: the "query" field, if present. */
  datatype Request = Request(query: Option<string>)

  datatype ResponseBody = ErrorBody(error: string) | AnswerBody(response: string, images: seq<string>)

  datatype Response = Response(status: nat, body: ResponseBody)

  const QueryRequired: Response := Response(400, ErrorBody("Query is required"))

  /** Rejects a missing or empty query; otherwise retrieves, asks the chat
   * model, and answers with its reply and the retrieved images. */
  method HandleUserQuery(request: Request, search: (string, nat) -> seq<Match>, chat: seq<ChatMessage> -> string)
    returns (response: Response)
    ensures (request.query.None? || request.query == Some("")) <==> response == QueryRequired
    ensures request.query.Some? && request.query.value != "" ==>
      var q := request.query.value;
      && response.status == 200
      && response.body.AnswerBody?
      && NoDuplicates(response.body.images)
      && (forall x :: x in response.body.images <==> x in CollectedImages(search(q, TopK)))
      && response.body.response == GenerateResponse(q, RelevantChunks(search(q, TopK)), response.body.images, chat)
  {
    if request.query.None? || request.query.value == "" {
      return QueryRequired;
    }
    var userQuery := request.query.value;
    var relevantText, relevantImages := FindRelevantContent(userQuery, TopK, search);
    CollectedImagesMembers(search(userQuery, TopK));
    var finalResponse := GenerateResponse(userQuery, relevantText, relevantImages, chat);
    response := Response(200, AnswerBody(finalResponse, relevantImages));
  }
}
