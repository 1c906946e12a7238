/** The question-answering pipeline: filtering the vector store's candidates by score,
    rendering the kept fragments as a context block, serialising the chat history,
    filling the prompt template and asking the language model.

    The vector store's search and the language model are parameters: `search(question, k)`
    stands for the store's `(document, score)` list and `llm(prompt)` for the remote model,
    which either completes or raises. */
module RagPipeline {
  import opened Wrappers
  import opened Seqs
  import opened Text

  /** A value held in a document's metadata dictionary. */
  datatype MetaValue = IntValue(i: int) | StrValue(s: string)

  type Metadata = map<string, MetaValue>

  /** How a metadata value prints inside an f-string. */
  function Render(v: MetaValue): string
  {
    match v
    case IntValue(i) => IntToDecimal(i)
    case StrValue(s) => s
  }

  /** A stored chunk as the vector store returns it. */
  datatype Doc = Doc(pageContent: string, metadata: Metadata)

  /** One `(doc, score)` pair of the store's result; a lower score is a closer match. */
  datatype Candidate = Candidate(doc: Doc, score: real)

  /** A retrieved fragment, shown to the model and returned as a source. */
  datatype DocumentSource = DocumentSource(content: string, page: MetaValue, metadata: Metadata, score: real)

  /** The retrieval settings: how many candidates to ask for and the score cut-off. */
  datatype Settings = Settings(retrievalK: nat, similarityThreshold: real)

  /** `metadata.get("page", 0)`. */
  function PageOf(metadata: Metadata): MetaValue
  {
    if "page" in metadata then metadata["page"] else IntValue(0)
  }

  /** The test a candidate passes to be kept: its content is not blank once stripped and its
      score does not exceed the threshold. */
  predicate Kept(threshold: real, c: Candidate)
  {
    Strip(c.doc.pageContent) != [] && c.score <= threshold
  }

  /** `Kept` as a filter condition. */
  function Keeps(threshold: real): Candidate -> bool
  {
    c => Kept(threshold, c)
  }

  /** The fragment a kept candidate becomes. */
  function ToSource(c: Candidate): DocumentSource
  {
    DocumentSource(c.doc.pageContent, PageOf(c.doc.metadata), c.doc.metadata, c.score)
  }

  /** What retrieval returns for the store's `candidates`: the kept ones, in store order,
      each turned into a fragment. */
  function Retrieved(candidates: seq<Candidate>, threshold: real): (r: seq<DocumentSource>)
    ensures |r| <= |candidates|
    ensures forall d :: d in r ==> d.score <= threshold && Strip(d.content) != []
  {
    var kept := Filter(candidates, Keeps(threshold));
    assert forall i :: 0 <= i < |kept| ==> kept[i] in kept && Keeps(threshold)(kept[i]);
    assert forall i :: 0 <= i < |kept| ==> Kept(threshold, kept[i]);
    seq(|kept|, i requires 0 <= i < |kept| => ToSource(kept[i]))
  }

  /** Retrieval of one more candidate appends its fragment exactly when it is kept. */
  lemma RetrievedSnoc(candidates: seq<Candidate>, c: Candidate, threshold: real)
    ensures Retrieved(candidates + [c], threshold)
         == Retrieved(candidates, threshold) + (if Kept(threshold, c) then [ToSource(c)] else [])
  {
    FilterSnoc(candidates, c, Keeps(threshold));
  }

  /** The loop over the store's result: skip blank chunks, keep those within the threshold. */
  method RetrieveDocuments(candidates: seq<Candidate>, threshold: real) returns (documents: seq<DocumentSource>)
    ensures documents == Retrieved(candidates, threshold)
  {
    documents := [];
    for i := 0 to |candidates|
      invariant documents == Retrieved(candidates[..i], threshold)
    {
      var c := candidates[i];
      RetrievedSnoc(candidates[..i], c, threshold);
      assert candidates[..i + 1] == candidates[..i] + [c];
      if Strip(c.doc.pageContent) == [] {
        assert !Kept(threshold, c);
        continue;
      }
      if c.score <= threshold {
        var source := DocumentSource(c.doc.pageContent, PageOf(c.doc.metadata), c.doc.metadata, c.score);
        assert Kept(threshold, c) && source == ToSource(c);
        documents := documents + [source];
      } else {
        assert !Kept(threshold, c);
      }
    }
    assert candidates[..|candidates|] == candidates;
  }

  /** A fragment never has blank content, whatever the score of its candidate. */
  lemma RetrievedSkipsBlank(candidates: seq<Candidate>, threshold: real)
    ensures forall d :: d in Retrieved(candidates, threshold) ==> !IsBlank(d.content)
  {
    forall d | d in Retrieved(candidates, threshold)
      ensures !IsBlank(d.content)
    {
      StripEmptyIffBlank(d.content);
    }
  }

  /** A threshold below every score retrieves nothing, and raises nothing. */
  lemma RetrievedEmptyBelowAllScores(candidates: seq<Candidate>, threshold: real)
    requires forall i :: 0 <= i < |candidates| ==> threshold < candidates[i].score
    ensures Retrieved(candidates, threshold) == []
  {
    FilterNone(candidates, Keeps(threshold));
  }

  /** Retrieval is a subsequence of the candidates with each field copied: `idx` gives, in
      increasing order, the candidate behind each fragment, and every candidate with non-blank
      content and a score within the threshold is among them. */
  lemma RetrievedSubsequence(candidates: seq<Candidate>, threshold: real) returns (idx: seq<nat>)
    ensures |idx| == |Retrieved(candidates, threshold)|
    ensures forall j, k :: 0 <= j < k < |idx| ==> idx[j] < idx[k]
    ensures forall j :: 0 <= j < |idx| ==> idx[j] < |candidates|
    ensures forall j :: 0 <= j < |idx| ==>
      var c, d := candidates[idx[j]], Retrieved(candidates, threshold)[j];
      && d.content == c.doc.pageContent
      && d.metadata == c.doc.metadata
      && d.score == c.score
      && d.page == (if "page" in c.doc.metadata then c.doc.metadata["page"] else IntValue(0))
    ensures forall i ::
      (0 <= i < |candidates| && !IsBlank(candidates[i].doc.pageContent) && candidates[i].score <= threshold)
      ==> i in idx
  {
    idx := FilterSubsequence(candidates, Keeps(threshold));
    forall i | 0 <= i < |candidates| && !IsBlank(candidates[i].doc.pageContent)
      && candidates[i].score <= threshold
      ensures i in idx
    {
      StripEmptyIffBlank(candidates[i].doc.pageContent);
      assert Kept(threshold, candidates[i]);
    }
  }

  /** Asking the store for more candidates only appends fragments: when the shorter result is
      a prefix of the longer one, so is its retrieval. */
  lemma RetrievedMonotone(shorter: seq<Candidate>, longer: seq<Candidate>, threshold: real)
    requires shorter <= longer
    ensures Retrieved(shorter, threshold) <= Retrieved(longer, threshold)
  {
    assert shorter == longer[..|shorter|];
    FilterPrefix(longer, |shorter|, Keeps(threshold));
  }

  /** The label and content of one fragment in the context block. */
  function Tag(d: DocumentSource): string
  {
    "[Source: Page " + Render(d.page) + "] " + d.content
  }

  /** The labelled fragments, in retrieval order. */
  function Tags(documents: seq<DocumentSource>): (r: seq<string>)
    ensures |r| == |documents|
    ensures forall i :: 0 <= i < |r| ==> r[i] == Tag(documents[i])
  {
    seq(|documents|, i requires 0 <= i < |documents| => Tag(documents[i]))
  }

  /** The context block: labelled fragments separated by a blank line. It is empty exactly
      when there are no fragments. */
  function Context(documents: seq<DocumentSource>): (r: string)
    ensures r == "" <==> documents == []
  {
    Join("\n\n", Tags(documents))
  }

  /** One more fragment adds one blank-line separator and its label at the end. */
  lemma ContextSnoc(documents: seq<DocumentSource>, d: DocumentSource)
    requires documents != []
    ensures Context(documents + [d]) == Context(documents) + "\n\n" + Tag(d)
  {
    assert Tags(documents + [d]) == Tags(documents) + [Tag(d)];
    JoinSnoc("\n\n", Tags(documents), Tag(d));
  }

  /** The context holds nothing but the labelled fragments and n - 1 two-character separators. */
  lemma ContextLength(documents: seq<DocumentSource>)
    requires documents != []
    ensures |Context(documents)| == TotalLength(Tags(documents)) + 2 * (|documents| - 1)
  {
    JoinLength("\n\n", Tags(documents));
  }

  /** One turn of the conversation. */
  datatype Turn = Turn(user: string, assistant: string)

  /** The lines one turn contributes to the history. */
  function TurnText(t: Turn): string
  {
    "User: " + t.user + "\nAssistant: " + t.assistant + "\n"
  }

  /** The turns' lines, oldest first. */
  function Transcript(turns: seq<Turn>): string
  {
    if turns == [] then "" else TurnText(turns[0]) + Transcript(turns[1..])
  }

  /** The transcript of two runs of turns is the two transcripts one after the other. */
  lemma {:induction false} TranscriptAppend(a: seq<Turn>, b: seq<Turn>)
    ensures Transcript(a + b) == Transcript(a) + Transcript(b)
  {
    if a == [] {
      assert a + b == b;
    } else {
      assert (a + b)[0] == a[0] && (a + b)[1..] == a[1..] + b;
      TranscriptAppend(a[1..], b);
      calc {
        Transcript(a + b);
        TurnText(a[0]) + Transcript(a[1..] + b);
        TurnText(a[0]) + (Transcript(a[1..]) + Transcript(b));
        (TurnText(a[0]) + Transcript(a[1..])) + Transcript(b);
      }
    }
  }

  /** The history text handed to the prompt: the transcript of the turns, stripped. A missing
      history is treated as no turns. */
  method SerializeHistory(history: Option<seq<Turn>>) returns (s: string)
    ensures s == Strip(Transcript(history.GetOr([])))
    ensures history == None || history == Some([]) ==> s == ""
  {
    var acc := "";
    if history.Some? && history.value != [] {
      var turns := history.value;
      for i := 0 to |turns|
        invariant acc == Transcript(turns[..i])
      {
        TranscriptAppend(turns[..i], [turns[i]]);
        assert turns[..i + 1] == turns[..i] + [turns[i]];
        acc := acc + TurnText(turns[i]);
      }
      assert turns[..|turns|] == turns;
    }
    s := Strip(acc);
  }

  /** Every non-empty transcript starts with the `User: ` label, so stripping
      never removes anything at its start. */
  lemma TranscriptStartsWithUser(turns: seq<Turn>)
    requires turns != []
    ensures Transcript(turns) != [] && Transcript(turns)[0] == 'U'
  {
    assert TurnText(turns[0])[0] == 'U';
  }

  /** The tail of a turn's text after `Assistant:`, with trailing whitespace trimmed. */
  lemma AnswerTailTrimmed(answer: string)
    ensures TrimEnd(" " + answer + "\n") == if IsBlank(answer) then "" else " " + TrimEnd(answer)
  {
    var spaced := " " + answer;
    var tail := spaced + "\n";
    assert tail[..|tail| - 1] == spaced;
    TrimEndDropSpace(tail);
    if IsBlank(answer) {
      assert IsBlank(spaced) by {
        forall i | 0 <= i < |spaced|
          ensures IsSpace(spaced[i])
        {
          if i > 0 {
            assert spaced[i] == answer[i - 1];
          }
        }
      }
      TrimEndBlank(spaced);
    } else {
      TrimEndAppend(" ", answer);
    }
  }

  /** A turn's text splits after the `Assistant:` label. */
  lemma TurnTextSplit(t: Turn)
    ensures TurnText(t) == ("User: " + t.user + "\nAssistant:") + (" " + t.assistant + "\n")
  {
    assert "\nAssistant: " == "\nAssistant:" + " ";
  }

  /** The transcript with one more turn, cut after that turn's `Assistant:` label: the part
      before the cut starts with `U` and ends with `:`. */
  lemma TranscriptAtLastLabel(earlier: seq<Turn>, newest: Turn)
    ensures var head := Transcript(earlier) + "User: " + newest.user + "\nAssistant:";
      && Transcript(earlier + [newest]) == head + (" " + newest.assistant + "\n")
      && head[0] == 'U' && head[|head| - 1] == ':'
  {
    TranscriptAppend(earlier, [newest]);
    assert Transcript([newest]) == TurnText(newest);
    TurnTextSplit(newest);
    var opening := "User: " + newest.user + "\nAssistant:";
    var head := Transcript(earlier) + opening;
    ConcatAssoc(Transcript(earlier), "User: ", newest.user);
    ConcatAssoc(Transcript(earlier), "User: " + newest.user, "\nAssistant:");
    assert head == Transcript(earlier) + "User: " + newest.user + "\nAssistant:";
    ConcatAssoc(Transcript(earlier), opening, " " + newest.assistant + "\n");
    TranscriptStartsWithUser(earlier + [newest]);
    assert head[|head| - 1] == opening[|opening| - 1];
  }

  /** Stripping a text that starts and ends its first part with non-whitespace only trims the
      answer that follows it. */
  lemma StripAfterLabel(head: string, answer: string)
    requires head != [] && !IsSpace(head[0]) && !IsSpace(head[|head| - 1])
    ensures Strip(head + (" " + answer + "\n"))
         == head + (if IsBlank(answer) then "" else " " + TrimEnd(answer))
  {
    var full := head + (" " + answer + "\n");
    assert full[0] == head[0];
    StripNonSpaceStart(full);
    TrimEndAfterNonSpace(head, " " + answer + "\n");
    AnswerTailTrimmed(answer);
  }

  /** Stripping the history only trims the end of the newest turn: every earlier turn, and the
      newest up to its `Assistant:` label, survive intact, followed by the newest answer without
      its trailing whitespace (and nothing at all when that answer is blank). */
  lemma HistoryKeepsEarlierTurns(earlier: seq<Turn>, newest: Turn)
    ensures Strip(Transcript(earlier + [newest]))
         == Transcript(earlier) + "User: " + newest.user + "\nAssistant:"
            + (if IsBlank(newest.assistant) then "" else " " + TrimEnd(newest.assistant))
  {
    TranscriptAtLastLabel(earlier, newest);
    StripAfterLabel(Transcript(earlier) + "User: " + newest.user + "\nAssistant:", newest.assistant);
  }

  /** The fixed text of the prompt template before the history. */
  const PromptHead: string := "<s>[INST] \n                You are a helpful AI assistant. \n                You must answer the question using ONLY the provided context. \n\n                Conversation History:\n                "
  /** The fixed text between the history and the context. */
  const BeforeContext: string := "\n\n                Context:\n                "
  /** The fixed text between the context and the question. */
  const BeforeQuestion: string := "\n\n                Question:\n                "
  /** The fixed text after the question. */
  const PromptTail: string := "\n\n                Answer:\n                [/INST]"

  /** The filled prompt template. */
  function Prompt(history: string, context: string, question: string): string
  {
    PromptHead + history + BeforeContext + context + BeforeQuestion + question + PromptTail
  }

  /** The prompt holds the history, the context and the question verbatim, in that order, each
      at a position fixed by the template and the lengths of what comes before it. */
  lemma PromptLayout(history: string, context: string, question: string)
    ensures var p, h, c := Prompt(history, context, question), |PromptHead|, |PromptHead| + |history| + |BeforeContext|;
      var q := c + |context| + |BeforeQuestion|;
      && |p| == q + |question| + |PromptTail|
      && p[..h] == PromptHead
      && p[h..h + |history|] == history
      && p[c..c + |context|] == context
      && p[q..q + |question|] == question
      && p[q + |question|..] == PromptTail
  {
  }

  /** What the language model does with a prompt: complete it or raise. */
  datatype LlmReply = Completed(text: string) | Raised(error: string)

  /** Asking the model: the history is serialised, the template filled with it, the context
      and the question, and the model called on the result. */
  method GenerateLlmResponse(llm: string -> LlmReply, question: string, context: string,
                             history: Option<seq<Turn>>)
    returns (reply: LlmReply)
    ensures reply == llm(Prompt(Strip(Transcript(history.GetOr([]))), context, question))
  {
    var historyText := SerializeHistory(history);
    reply := llm(Prompt(historyText, context, question));
  }

  /** The answer and the fragments it was grounded on. */
  datatype Answer = Answer(answer: string, sources: seq<DocumentSource>)

  /** The reply the unreachable exception handler would give. */
  const FallbackAnswer: string := "Sorry, an error occurred while processing your request."

  /** The prompt built for `question` from the retrieved `sources` and the history. */
  function PromptFor(sources: seq<DocumentSource>, question: string, history: Option<seq<Turn>>): string
  {
    Prompt(Strip(Transcript(history.GetOr([]))), Context(sources), question)
  }

  /** Answering as written: retrieve, build the context, serialise the history, call the
      model. The sources returned are exactly the fragments the context was built from; an
      error raised by the model propagates, since the call comes before the `try`. */
  method GenerateAnswer(settings: Settings, search: (string, nat) -> seq<Candidate>,
                        llm: string -> LlmReply, question: string, history: Option<seq<Turn>>)
    returns (r: Result<Answer, string>)
    ensures var sources := Retrieved(search(question, settings.retrievalK), settings.similarityThreshold);
      match llm(PromptFor(sources, question, history))
      case Completed(text) => r == Success(Answer(text, sources))
      case Raised(e) => r == Failure(e)
  {
    var documents := RetrieveDocuments(search(question, settings.retrievalK), settings.similarityThreshold);
    var context := Context(documents);
    var reply := GenerateLlmResponse(llm, question, context, history);
    match reply
    case Raised(e) =>
      r := Failure(e);
    case Completed(text) =>
      r := Success(Answer(text, documents));
  }

  /** Answering with the model's failure recovered, as the handler's fallback reply intends:
      the call never fails; a model error yields the fallback reply with no sources. */
  method GenerateAnswerRecovering(settings: Settings, search: (string, nat) -> seq<Candidate>,
                                  llm: string -> LlmReply, question: string, history: Option<seq<Turn>>)
    returns (a: Answer)
    ensures var sources := Retrieved(search(question, settings.retrievalK), settings.similarityThreshold);
      match llm(PromptFor(sources, question, history))
      case Completed(text) => a == Answer(text, sources)
      case Raised(_) => a == Answer(FallbackAnswer, [])
  {
    var documents := RetrieveDocuments(search(question, settings.retrievalK), settings.similarityThreshold);
    var context := Context(documents);
    var reply := GenerateLlmResponse(llm, question, context, history);
    match reply
    case Raised(_) =>
      a := Answer(FallbackAnswer, []);
    case Completed(text) =>
      a := Answer(text, documents);
  }

  /** A model that always raises, as written: the caller sees the model's error. */
  method ModelErrorPropagates(settings: Settings, search: (string, nat) -> seq<Candidate>,
                              llm: string -> LlmReply, question: string, history: Option<seq<Turn>>)
    returns (r: Result<Answer, string>)
    requires forall prompt :: llm(prompt).Raised?
    ensures r.Failure?
  {
    r := GenerateAnswer(settings, search, llm, question, history);
  }

  /** A model that always raises, with the failure recovered: the fallback reply and no
      sources. */
  method ModelErrorRecovered(settings: Settings, search: (string, nat) -> seq<Candidate>,
                             llm: string -> LlmReply, question: string, history: Option<seq<Turn>>)
    returns (a: Answer)
    requires forall prompt :: llm(prompt).Raised?
    ensures a == Answer(FallbackAnswer, [])
  {
    a := GenerateAnswerRecovering(settings, search, llm, question, history);
  }
}
