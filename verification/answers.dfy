/** The answer side of `RAGEngine`: mapping index matches to contexts
    (`retrieve_context`), building the prompt and cutting it to length
    (`get_response`, `call_llm_api`), reading the generation service's reply,
    and projecting the top contexts into cited sources.

    Outside the model: the query embedding plus the index query are one
    parameter `search` (query text and `top_k` in, matches or an error text
    out); the generation service is `post` (the prompt in, the decoded JSON
    body or the request error text out); rendering a score with `:.2f` is
    `formatScore`. */
module Answers {
  import opened Wrappers
  import opened Strings
  import Vectors

  /** A similarity score; never computed with. */
  datatype Score = Score(value: real)

  /** The metadata of a match; a key the index did not return is `None`. */
  datatype MatchMetadata = MatchMetadata(text: Option<string>, source: Option<string>, chunkId: Option<int>, jobId: Option<string>)

  datatype Match = Match(score: Score, metadata: MatchMetadata)

  /** One entry of the list `retrieve_context` returns. */
  datatype Context = Context(text: string, source: string, score: Score, chunkId: int)

  type Search = (string, nat) -> Result<seq<Match>, string>

  const DefaultTopK := 5

  /** `match.metadata.get(key, default)` for each field. */
  function ToContext(m: Match): (c: Context)
    ensures c.text == m.metadata.text.GetOr([]) && c.source == m.metadata.source.GetOr([])
    ensures c.chunkId == m.metadata.chunkId.GetOr(0) && c.score == m.score
  {
    Context(m.metadata.text.GetOr([]), m.metadata.source.GetOr([]), m.score, m.metadata.chunkId.GetOr(0))
  }

  /** The match list in index order, each mapped with defaults. */
  function MapMatches(ms: seq<Match>): (r: seq<Context>)
    ensures |r| == |ms|
    ensures forall i :: 0 <= i < |r| ==> r[i] == ToContext(ms[i])
  {
    seq(|ms|, i requires 0 <= i < |ms| => ToContext(ms[i]))
  }

  /** The metadata `store_embeddings` writes, as a query returns it. */
  function StoredMetadata(m: Vectors.VectorMetadata): MatchMetadata {
    MatchMetadata(Some(m.text), Some(m.source), Some(m.chunkId), Some(m.jobId))
  }

  /** A match on a stored record gives back the chunk's text, file and chunk
      number: the defaults never apply to what the engine itself stored. */
  lemma StoredMetadataRoundTrip(m: Vectors.VectorMetadata, score: Score)
    ensures ToContext(Match(score, StoredMetadata(m))) == Context(m.text, m.source, score, m.chunkId)
  {
  }

  /** `retrieve_context(query, top_k=5)`. Nothing restricts the query to one
      job: every stored vector is a candidate. */
  function RetrieveContext(search: Search, query: string): (r: Result<seq<Context>, string>)
    ensures search(query, DefaultTopK).Failure? ==>
      r == Failure("Error retrieving context: " + search(query, DefaultTopK).error)
    ensures search(query, DefaultTopK).Success? ==>
      var ms := search(query, DefaultTopK).value;
      && r.Success? && |r.value| == |ms|
      && forall i :: 0 <= i < |ms| ==> r.value[i] == ToContext(ms[i])
  {
    match search(query, DefaultTopK)
    case Failure(e) => Failure("Error retrieving context: " + e)
    case Success(ms) => Success(MapMatches(ms))
  }

  // ----- conversation history -----

  datatype Role = User | Assistant

  datatype Message = Message(role: Role, content: string, timestamp: string)

  /** `msg['role'].upper()`. */
  function RoleLabel(r: Role): string {
    match r
    case User => "USER"
    case Assistant => "ASSISTANT"
  }

  /** `history[-4:]`. */
  function RecentHistory(h: seq<Message>): (r: seq<Message>)
    ensures |r| == Min(4, |h|)
    ensures r == h[|h| - |r|..]
  {
    if |h| <= 4 then h else h[|h| - 4..]
  }

  function HistoryLine(m: Message): string {
    RoleLabel(m.role) + ": " + m.content
  }

  /** One line per message, in order. */
  function HistoryLines(recent: seq<Message>): (r: seq<string>)
    ensures |r| == |recent|
    ensures forall i :: 0 <= i < |r| ==> r[i] == HistoryLine(recent[i])
  {
    seq(|recent|, i requires 0 <= i < |recent| => HistoryLine(recent[i]))
  }

  function HistoryText(h: seq<Message>): string {
    if h == [] then [] else Join("\n", HistoryLines(RecentHistory(h)))
  }

  const HistoryIntro := "Previous conversation:\n"

  function HistoryBlock(h: seq<Message>): string {
    var text := HistoryText(h);
    if text != [] then HistoryIntro + text + "\n\n" else []
  }

  // ----- the prompt -----

  function ContextEntry(c: Context, formatScore: Score -> string): string {
    "[Source: " + c.source + ", Relevance: " + formatScore(c.score) + "]\n" + c.text
  }

  /** One entry per context, in order. */
  function ContextEntries(cs: seq<Context>, formatScore: Score -> string): (r: seq<string>)
    ensures |r| == |cs|
    ensures forall i :: 0 <= i < |r| ==> r[i] == ContextEntry(cs[i], formatScore)
  {
    seq(|cs|, i requires 0 <= i < |cs| => ContextEntry(cs[i], formatScore))
  }

  function ContextText(cs: seq<Context>, formatScore: Score -> string): string {
    Join("\n\n", ContextEntries(cs, formatScore))
  }

  const PromptHeader := "You are a helpful AI assistant answering questions based on provided documents.\n\nContext from documents:\n"

  const QuestionLead := "User Question: "

  const PromptInstructions :=
    "\n\nInstructions:\n"
    + "1. Answer the question based ONLY on the provided context\n"
    + "2. Be specific and cite sources when possible\n"
    + "3. If the context doesn't contain the answer, say so\n"
    + "4. Keep your answer concise and relevant\n"
    + "5. Maintain conversation continuity if there's previous context\n"
    + "6. No special characters and response should be in plain text\n"
    + "Answer:"

  /** The fixed text of a prompt: what comes before the contexts, before the
      question and after it. */
  datatype Template = Template(header: string, lead: string, instructions: string)

  const RagTemplate := Template(PromptHeader, QuestionLead, PromptInstructions)

  /** The f-string of `get_response`: the header, the context block, the
      conversation block (empty without a history), the question and the
      instructions. */
  function FillPrompt(t: Template, contextText: string, historyBlock: string, query: string): (r: string)
    ensures |t.header| <= |r| && r[..|t.header|] == t.header
    ensures EndsWith(r, t.lead + query + t.instructions)
  {
    PromptEnds(t.header, contextText, historyBlock, t.lead, query, t.instructions);
    t.header + contextText + "\n\n" + historyBlock + t.lead + query + t.instructions
  }

  /** The prompt `get_response` builds. */
  function BuildPrompt(cs: seq<Context>, history: seq<Message>, query: string, formatScore: Score -> string): (r: string)
    ensures |PromptHeader| <= |r| && r[..|PromptHeader|] == PromptHeader
    ensures EndsWith(r, QuestionLead + query + PromptInstructions)
  {
    FillPrompt(RagTemplate, ContextText(cs, formatScore), HistoryBlock(history), query)
  }

  /** Every retrieved context reaches the prompt: its source header, then its
      text, at its place in the context block, in retrieval order. */
  lemma PromptShowsContexts(t: Template, cs: seq<Context>, formatScore: Score -> string, historyBlock: string, query: string)
    ensures var p := FillPrompt(t, ContextText(cs, formatScore), historyBlock, query);
      var offs := JoinOffsets("\n\n", ContextEntries(cs, formatScore));
      forall i :: 0 <= i < |cs| ==>
        OccursAt(p, "[Source: " + cs[i].source + ", Relevance: " + formatScore(cs[i].score) + "]\n" + cs[i].text,
                 |t.header| + offs[i])
  {
    var entries := ContextEntries(cs, formatScore);
    JoinItems("\n\n", entries);
    ItemsInPrompt(t.header, ContextText(cs, formatScore), historyBlock, t.lead, query, t.instructions,
                  entries, JoinOffsets("\n\n", entries));
    forall i | 0 <= i < |cs|
      ensures entries[i] == "[Source: " + cs[i].source + ", Relevance: " + formatScore(cs[i].score) + "]\n" + cs[i].text
    {
    }
  }

  /** With a history, the prompt holds the `"Previous conversation:"` block
      right after the contexts and their blank line, and in it the
      `ROLE: content` line of each recent message `i`, at that message's place
      in the block (the places grow with `i`, by `Strings.JoinOffsetsStep`). */
  lemma PromptShowsRecentMessage(t: Template, contextText: string, history: seq<Message>, query: string, i: nat)
    requires i < |RecentHistory(history)|
    ensures var p := FillPrompt(t, contextText, HistoryBlock(history), query);
      var recent := RecentHistory(history);
      var at := |t.header| + |contextText| + 2;
      && OccursAt(p, HistoryIntro, at)
      && OccursAt(p, RoleLabel(recent[i].role) + ": " + recent[i].content,
                  at + |HistoryIntro| + JoinOffsets("\n", HistoryLines(recent))[i])
  {
    var recent := RecentHistory(history);
    var lines := HistoryLines(recent);
    assert lines[i] == RoleLabel(recent[i].role) + ": " + recent[i].content;
    HistoryBlockOf(history);
    IntroOfLinesInPrompt(t, contextText, lines, query);
    LineInPrompt(t, contextText, lines, query, i,
                 |t.header| + |contextText| + 2 + |HistoryIntro| + JoinOffsets("\n", HistoryLines(recent))[i]);
  }

  /** The block's intro, for any lines joined into the block. */
  lemma IntroOfLinesInPrompt(t: Template, contextText: string, lines: seq<string>, query: string)
    ensures OccursAt(FillPrompt(t, contextText, HistoryIntro + Join("\n", lines) + "\n\n", query), HistoryIntro, |t.header| + |contextText| + 2)
  {
    IntroInPrompt(t.header, contextText, HistoryIntro, Join("\n", lines), t.lead, query, t.instructions);
  }

  /** Line `i`, for any lines joined into the block. */
  lemma LineInPrompt(t: Template, contextText: string, lines: seq<string>, query: string, i: nat, at: int)
    requires i < |lines|
    requires at == |t.header| + |contextText| + 2 + |HistoryIntro| + JoinOffsets("\n", lines)[i]
    ensures OccursAt(FillPrompt(t, contextText, HistoryIntro + Join("\n", lines) + "\n\n", query), lines[i], at)
  {
    var text := Join("\n", lines);
    assert OccursAt(text, lines[i], JoinOffsets("\n", lines)[i]) by {
      JoinItems("\n", lines);
    }
    InHistoryBlockAt(t.header, contextText, HistoryIntro, text, t.lead, query, t.instructions, lines[i], JoinOffsets("\n", lines)[i], at);
  }

  /** Consecutive recent messages are consecutive lines of the block: the
      line of message `i` is followed by exactly one `"\n"`, and the line of
      message `i + 1` starts right after it. */
  lemma PromptHistoryLinesAdjacent(t: Template, contextText: string, history: seq<Message>, query: string, i: nat)
    requires i + 1 < |RecentHistory(history)|
    ensures var p := FillPrompt(t, contextText, HistoryBlock(history), query);
      var recent := RecentHistory(history);
      var offs := JoinOffsets("\n", HistoryLines(recent));
      var at := |t.header| + |contextText| + 2 + |HistoryIntro|;
      && OccursAt(p, "\n", at + offs[i] + |HistoryLine(recent[i])|)
      && offs[i + 1] == offs[i] + |HistoryLine(recent[i])| + 1
  {
    var recent := RecentHistory(history);
    var lines := HistoryLines(recent);
    assert lines[i] == HistoryLine(recent[i]);
    assert JoinOffsets("\n", lines)[i + 1] == JoinOffsets("\n", lines)[i] + |HistoryLine(recent[i])| + 1 by {
      JoinOffsetsStep("\n", lines, i);
    }
    HistoryBlockOf(history);
    LinesAdjacentInPrompt(t, contextText, lines, query, i,
                          |t.header| + |contextText| + 2 + |HistoryIntro| + JoinOffsets("\n", lines)[i] + |HistoryLine(recent[i])|);
  }

  /** The separator after line `i`, for any lines joined into the block. */
  lemma LinesAdjacentInPrompt(t: Template, contextText: string, lines: seq<string>, query: string, i: nat, at: int)
    requires i + 1 < |lines|
    requires at == |t.header| + |contextText| + 2 + |HistoryIntro| + JoinOffsets("\n", lines)[i] + |lines[i]|
    ensures OccursAt(FillPrompt(t, contextText, HistoryIntro + Join("\n", lines) + "\n\n", query), "\n", at)
  {
    var k := JoinOffsets("\n", lines)[i] + |lines[i]|;
    assert OccursAt(Join("\n", lines), "\n", k) by {
      JoinSeparators("\n", lines, i);
    }
    InHistoryBlockAt(t.header, contextText, HistoryIntro, Join("\n", lines), t.lead, query, t.instructions, "\n", k,
                     at);
  }

  /** With a history, the last recent message's line is followed by a blank
      line, the question and the instructions, and nothing else. */
  lemma PromptQuestionAfterHistory(t: Template, contextText: string, history: seq<Message>, query: string)
    requires history != []
    ensures var p := FillPrompt(t, contextText, HistoryBlock(history), query);
      var recent := RecentHistory(history);
      var offs := JoinOffsets("\n", HistoryLines(recent));
      var end := |t.header| + |contextText| + 2 + |HistoryIntro| + offs[|recent| - 1] + |HistoryLine(recent[|recent| - 1])|;
      OccursLast(p, "\n\n" + t.lead + query + t.instructions, end)
  {
    var recent := RecentHistory(history);
    var lines := HistoryLines(recent);
    var end := |t.header| + |contextText| + 2 + |HistoryIntro| + JoinOffsets("\n", lines)[|recent| - 1] + |HistoryLine(recent[|recent| - 1])|;
    assert lines[|lines| - 1] == HistoryLine(recent[|recent| - 1]);
    assert FillPrompt(t, contextText, HistoryBlock(history), query)
        == FillPrompt(t, contextText, HistoryIntro + Join("\n", lines) + "\n\n", query) by {
      HistoryBlockOf(history);
    }
    QuestionAfterLines(t, contextText, lines, query, end);
  }

  /** `PromptQuestionAfterHistory` for any non-empty lines joined into the block. */
  lemma QuestionAfterLines(t: Template, contextText: string, lines: seq<string>, query: string, end: int)
    requires lines != []
    requires end == |t.header| + |contextText| + 2 + |HistoryIntro| + JoinOffsets("\n", lines)[|lines| - 1] + |lines[|lines| - 1]|
    ensures OccursLast(FillPrompt(t, contextText, HistoryIntro + Join("\n", lines) + "\n\n", query), "\n\n" + t.lead + query + t.instructions, end)
  {
    JoinLength("\n", lines);
    QuestionAfterBlock(t.header, contextText, HistoryIntro, Join("\n", lines), t.lead, query, t.instructions, end);
  }

  /** A non-empty history always gives a block: its last line is never empty. */
  lemma HistoryBlockOf(history: seq<Message>)
    requires history != []
    ensures HistoryBlock(history) == HistoryIntro + Join("\n", HistoryLines(RecentHistory(history))) + "\n\n"
  {
    var recent := RecentHistory(history);
    var lines := HistoryLines(recent);
    assert lines[|lines| - 1] == RoleLabel(recent[|lines| - 1].role) + ": " + recent[|lines| - 1].content;
    JoinLength("\n", lines);
  }

  /** Without a history there is no conversation block: the question follows
      the contexts and their blank line directly. */
  lemma PromptWithoutHistory(t: Template, contextText: string, query: string)
    ensures var p := FillPrompt(t, contextText, HistoryBlock([]), query);
      var at := |t.header| + |contextText|;
      OccursLast(p, "\n\n" + t.lead + query + t.instructions, at)
  {
    assert HistoryBlock([]) == [];
    QuestionAfterContexts(t.header, contextText, t.lead, query, t.instructions);
  }

  // The prompt's layout, stated over any header, blocks and instructions.

  lemma PromptEnds(h: string, c: string, b: string, lead: string, q: string, ins: string)
    ensures var p := h + c + "\n\n" + b + lead + q + ins;
      |h| <= |p| && p[..|h|] == h && EndsWith(p, lead + q + ins)
  {
    var p := h + c + "\n\n" + b + lead + q + ins;
    assert p == h + (c + "\n\n" + b + lead + q + ins);
    assert p == (h + c + "\n\n" + b) + (lead + q + ins);
  }

  /** What `c` holds at offset `k`, the prompt holds at `|h| + k`. */
  lemma InContextBlock(h: string, c: string, b: string, lead: string, q: string, ins: string, pat: string, k: int)
    requires OccursAt(c, pat, k)
    ensures OccursAt(h + c + "\n\n" + b + lead + q + ins, pat, |h| + k)
  {
    OccursAfter(h, c, pat, k);
    OccursExtend(h + c, "\n\n", pat, |h| + k);
    OccursExtend(h + c + "\n\n", b, pat, |h| + k);
    OccursExtend(h + c + "\n\n" + b, lead, pat, |h| + k);
    OccursExtend(h + c + "\n\n" + b + lead, q, pat, |h| + k);
    OccursExtend(h + c + "\n\n" + b + lead + q, ins, pat, |h| + k);
  }

  lemma ItemsInPrompt(h: string, c: string, b: string, lead: string, q: string, ins: string, items: seq<string>, offs: seq<nat>)
    requires |offs| == |items|
    requires forall i :: 0 <= i < |items| ==> OccursAt(c, items[i], offs[i])
    ensures forall i :: 0 <= i < |items| ==> OccursAt(h + c + "\n\n" + b + lead + q + ins, items[i], |h| + offs[i])
  {
    forall i | 0 <= i < |items|
      ensures OccursAt(h + c + "\n\n" + b + lead + q + ins, items[i], |h| + offs[i])
    {
      InContextBlock(h, c, b, lead, q, ins, items[i], offs[i]);
    }
  }

  /** What `text` holds at offset `k`, a prompt with the block `intro + text` holds past the intro. */
  lemma InHistoryBlock(h: string, c: string, intro: string, text: string, lead: string, q: string, ins: string, pat: string, k: int)
    requires OccursAt(text, pat, k)
    ensures OccursAt(h + c + "\n\n" + (intro + text + "\n\n") + lead + q + ins, pat, |h| + |c| + 2 + |intro| + k)
  {
    var head := h + c + "\n\n";
    var block := intro + text + "\n\n";
    OccursAfter(intro, text, pat, k);
    OccursExtend(intro + text, "\n\n", pat, |intro| + k);
    OccursAfter(head, block, pat, |intro| + k);
    OccursExtend(head + block, lead, pat, |head| + |intro| + k);
    OccursExtend(head + block + lead, q, pat, |head| + |intro| + k);
    OccursExtend(head + block + lead + q, ins, pat, |head| + |intro| + k);
  }

  /** `InHistoryBlock` with the position given in the caller's own form. */
  lemma InHistoryBlockAt(h: string, c: string, intro: string, text: string, lead: string, q: string, ins: string, pat: string, k: int, at: int)
    requires OccursAt(text, pat, k)
    requires at == |h| + |c| + 2 + |intro| + k
    ensures OccursAt(h + c + "\n\n" + (intro + text + "\n\n") + lead + q + ins, pat, at)
  {
    InHistoryBlock(h, c, intro, text, lead, q, ins, pat, k);
  }

  lemma IntroInPrompt(h: string, c: string, intro: string, text: string, lead: string, q: string, ins: string)
    ensures OccursAt(h + c + "\n\n" + (intro + text + "\n\n") + lead + q + ins, intro, |h| + |c| + 2)
  {
    var head := h + c + "\n\n";
    var block := intro + text + "\n\n";
    assert OccursAt(intro, intro, 0);
    OccursExtend(intro, text, intro, 0);
    OccursExtend(intro + text, "\n\n", intro, 0);
    OccursAfter(head, block, intro, 0);
    OccursExtend(head + block, lead, intro, |head|);
    OccursExtend(head + block + lead, q, intro, |head|);
    OccursExtend(head + block + lead + q, ins, intro, |head|);
  }

  /** After the history block's text come a blank line, the question and the instructions, and nothing else. */
  lemma QuestionAfterBlock(h: string, c: string, intro: string, text: string, lead: string, q: string, ins: string, end: int)
    requires end == |h| + |c| + 2 + |intro| + |text|
    ensures OccursLast(h + c + "\n\n" + (intro + text + "\n\n") + lead + q + ins, "\n\n" + lead + q + ins, end)
  {
    var s := h + c + "\n\n" + intro + text;
    var tail := "\n\n" + lead + q + ins;
    RegroupBlock(h + c + "\n\n", intro, text, lead, q, ins);
    TailOfPrompt(s, tail);
  }

  lemma RegroupBlock(head: string, intro: string, text: string, lead: string, q: string, ins: string)
    ensures head + (intro + text + "\n\n") + lead + q + ins == head + intro + text + ("\n\n" + lead + q + ins)
  {
  }

  lemma TailOfPrompt(s: string, tail: string)
    ensures OccursLast(s + tail, tail, |s|)
  {
    assert (s + tail)[|s|..] == tail;
  }

  lemma QuestionAfterContexts(h: string, c: string, lead: string, q: string, ins: string)
    ensures OccursLast(h + c + "\n\n" + [] + lead + q + ins, "\n\n" + lead + q + ins, |h| + |c|)
  {
    var tail := "\n\n" + lead + q + ins;
    assert h + c + "\n\n" + [] + lead + q + ins == (h + c) + tail + [];
    OccursInside(h + c, tail, [], tail, 0);
  }

  /** Only the last four history entries reach the prompt: messages older than
      those four make no difference to it. */
  lemma PromptSeesLastFourMessages(cs: seq<Context>, older: seq<Message>, history: seq<Message>, query: string, formatScore: Score -> string)
    requires |history| >= 4
    ensures BuildPrompt(cs, older + history, query, formatScore) == BuildPrompt(cs, history, query, formatScore)
  {
    var all := older + history;
    assert all[|all| - 4..] == history[|history| - 4..];
    assert RecentHistory(all) == RecentHistory(history);
  }

  // ----- cutting the prompt to length -----

  const MaxPromptLength := 2500
  const QuestionTag := "Question:"
  const TruncationMarker := "\n...[truncated]...\n"

  /** Python's `s[:stop]`; a negative `stop` counts from the end. */
  function SliceTo(s: string, stop: int): (r: string)
    ensures stop >= 0 ==> r == s[..Min(stop, |s|)]
    ensures stop < 0 ==> r == s[..Max(0, |s| + stop)]
  {
    if stop >= 0 then s[..Min(stop, |s|)] else s[..Max(0, |s| + stop)]
  }

  /** The length limit in `call_llm_api`: a long prompt keeps its part from the
      last `"Question:"` on and gives the rest of the budget (less 100) to the
      text before it; without such a part it is cut at 2500 characters. */
  function TruncatePrompt(prompt: string): (r: string)
    ensures |prompt| <= MaxPromptLength ==> r == prompt
  {
    if |prompt| <= MaxPromptLength then prompt
    else
      var q := LastIndexOf(prompt, QuestionTag);
      if q > 0 then
        var question := prompt[q..];
        SliceTo(prompt[..q], MaxPromptLength - |question| - 100) + TruncationMarker + question
      else
        prompt[..MaxPromptLength]
  }

  /** A long prompt whose last `"Question:"` is not at the start keeps that
      part whole at the end, after a prefix of the earlier text and the marker;
      its length is exactly 2419 when the question part has at most 2400
      characters. Beyond that the budget goes negative and Python's slice
      counts from the end, so more of the earlier text survives and the result
      can exceed 2500 characters. */
  lemma TruncateKeepsQuestion(prompt: string)
    requires |prompt| > MaxPromptLength && LastIndexOf(prompt, QuestionTag) > 0
    ensures var q := LastIndexOf(prompt, QuestionTag);
      var r := TruncatePrompt(prompt);
      && |r| >= |prompt| - q
      && r[|r| - (|prompt| - q)..] == prompt[q..]
      && exists k :: 0 <= k <= q && r == prompt[..k] + TruncationMarker + prompt[q..]
    ensures var q := LastIndexOf(prompt, QuestionTag);
      var question := |prompt| - q;
      |TruncatePrompt(prompt)| ==
        if question <= 2400 then 2419 else Max(question + |TruncationMarker|, q + 2419)
  {
    TruncateShape(prompt);
    TruncateLength(prompt);
  }

  lemma TruncateShape(prompt: string)
    requires |prompt| > MaxPromptLength && LastIndexOf(prompt, QuestionTag) > 0
    ensures var q := LastIndexOf(prompt, QuestionTag);
      var r := TruncatePrompt(prompt);
      && |r| >= |prompt| - q
      && r[|r| - (|prompt| - q)..] == prompt[q..]
      && exists k :: 0 <= k <= q && r == prompt[..k] + TruncationMarker + prompt[q..]
  {
    var q := LastIndexOf(prompt, QuestionTag);
    var question := prompt[q..];
    var kept := SliceTo(prompt[..q], MaxPromptLength - |question| - 100);
    assert kept == prompt[..|kept|];
    var head := kept + TruncationMarker;
    assert (head + question)[|head|..] == question;
  }

  lemma TruncateLength(prompt: string)
    requires |prompt| > MaxPromptLength && LastIndexOf(prompt, QuestionTag) > 0
    ensures var q := LastIndexOf(prompt, QuestionTag);
      var question := |prompt| - q;
      |TruncatePrompt(prompt)| ==
        if question <= 2400 then 2419 else Max(question + |TruncationMarker|, q + 2419)
  {
    var q := LastIndexOf(prompt, QuestionTag);
    var question := prompt[q..];
    var kept := SliceTo(prompt[..q], MaxPromptLength - |question| - 100);
    assert |TruncatePrompt(prompt)| == |kept| + |TruncationMarker| + |question|;
  }

  /** A long prompt with no `"Question:"` after its first character is cut to
      its first 2500 characters. */
  lemma TruncateWithoutQuestion(prompt: string)
    requires |prompt| > MaxPromptLength && LastIndexOf(prompt, QuestionTag) <= 0
    ensures TruncatePrompt(prompt) == prompt[..MaxPromptLength]
    ensures |TruncatePrompt(prompt)| == MaxPromptLength
  {
  }

  /** The 2500-character limit holds whenever the kept question part fits in
      2400 characters. */
  lemma TruncatedLengthBound(prompt: string)
    requires LastIndexOf(prompt, QuestionTag) <= 0 || |prompt| - LastIndexOf(prompt, QuestionTag) <= 2400
    ensures |TruncatePrompt(prompt)| <= MaxPromptLength
  {
    if |prompt| > MaxPromptLength {
      if LastIndexOf(prompt, QuestionTag) > 0 {
        TruncateKeepsQuestion(prompt);
      }
    }
  }

  /** Every prompt `get_response` builds contains `"Question:"` after its
      first character, so the length limit always keeps a question part and
      never falls back to the plain 2500-character cut. */
  lemma PromptHasQuestion(cs: seq<Context>, history: seq<Message>, query: string, formatScore: Score -> string)
    ensures LastIndexOf(BuildPrompt(cs, history, query, formatScore), QuestionTag) > 0
  {
    assert BuildPrompt(cs, history, query, formatScore) == PromptHeader + ContextText(cs, formatScore) + "\n\n" + HistoryBlock(history) + QuestionLead + query + PromptInstructions;
    LeadFindsQuestion(PromptHeader + ContextText(cs, formatScore) + "\n\n" + HistoryBlock(history), query, PromptInstructions);
  }

  /** Text containing the question lead after a non-empty start has `"Question:"` at a positive index. */
  lemma LeadFindsQuestion(head: string, query: string, rest: string)
    requires |head| > 0
    ensures LastIndexOf(head + QuestionLead + query + rest, QuestionTag) > 0
  {
    var tail := query + rest;
    assert head + QuestionLead + query + rest == head + QuestionLead + tail;
    assert QuestionLead == "User " + QuestionTag + " ";
    Regroup(head, "User ", QuestionTag, " ", tail);
    LastOccurrenceAfterStart(head + "User ", QuestionTag, " " + tail);
  }

  lemma Regroup(h: string, x: string, tag: string, y: string, t: string)
    ensures h + (x + tag + y) + t == (h + x) + tag + (y + t)
  {
  }

  /** A pattern that occurs after a non-empty prefix is found, by `rfind`, at a positive index. */
  lemma LastOccurrenceAfterStart(a: string, pat: string, b: string)
    requires |a| > 0
    ensures LastIndexOf(a + pat + b, pat) > 0
  {
    assert (a + pat + b)[|a|..|a| + |pat|] == pat;
    assert OccursAt(a + pat + b, pat, |a|);
  }

  // ----- the generation service -----

  datatype ReplyMessage = ReplyMessage(content: Option<string>)
  datatype Choice = Choice(message: Option<ReplyMessage>)

  /** The decoded JSON body: the `choices` list and the `response` field, when present. */
  datatype ReplyBody = ReplyBody(choices: Option<seq<Choice>>, response: Option<string>)

  datatype LlmService = LlmService(keyConfigured: bool, post: string -> Result<ReplyBody, string>)

  const ParseErrorPrefix := "Error parsing Sarvam AI response: "
  const UnexpectedFormat := "Unexpected response format from Sarvam AI"
  const MissingKey := "SARVAM_API_KEY not found in environment variables"

  /** The three-way reading of the reply in `call_llm_api`. */
  function ParseReply(body: ReplyBody): (r: Result<string, string>)
    ensures body.choices.Some? && body.choices.value != [] ==>
      var first := body.choices.value[0];
      && (first.message.None? ==> r == Failure(ParseErrorPrefix + "'message'"))
      && (first.message.Some? && first.message.value.content.None? ==> r == Failure(ParseErrorPrefix + "'content'"))
      && (first.message.Some? && first.message.value.content.Some? ==> r == Success(first.message.value.content.value))
    ensures (body.choices.None? || body.choices.value == []) ==>
      r == (if body.response.Some? then Success(body.response.value) else Failure(UnexpectedFormat))
  {
    if body.choices.Some? && |body.choices.value| > 0 then
      match body.choices.value[0].message
      case None => Failure(ParseErrorPrefix + "'message'")
      case Some(m) =>
        match m.content
        case None => Failure(ParseErrorPrefix + "'content'")
        case Some(c) => Success(c)
    else if body.response.Some? then
      Success(body.response.value)
    else
      Failure(UnexpectedFormat)
  }

  /** `call_llm_api`: the service receives the length-limited prompt. */
  function CallLlm(llm: LlmService, prompt: string): (r: Result<string, string>)
    ensures !llm.keyConfigured ==> r == Failure(MissingKey)
    ensures llm.keyConfigured && llm.post(TruncatePrompt(prompt)).Failure? ==>
      r == Failure("Sarvam AI API error: " + llm.post(TruncatePrompt(prompt)).error)
    ensures llm.keyConfigured && llm.post(TruncatePrompt(prompt)).Success? ==>
      r == ParseReply(llm.post(TruncatePrompt(prompt)).value)
  {
    if !llm.keyConfigured then Failure(MissingKey)
    else
      match llm.post(TruncatePrompt(prompt))
      case Failure(e) => Failure("Sarvam AI API error: " + e)
      case Success(body) => ParseReply(body)
  }

  // ----- answers -----

  datatype SourceRef = SourceRef(source: string, excerpt: string, relevanceScore: Score)

  datatype Answer = Answer(response: string, sources: seq<SourceRef>)

  datatype Rag = Rag(search: Search, formatScore: Score -> string, llm: LlmService)

  const NoInformationReply := "I don't have enough information to answer that question based on the uploaded documents."
  const ResponseErrorPrefix := "Error generating response: "

  /** `text[:200] + "..."`. */
  function Excerpt(text: string): (r: string)
    ensures |r| == Min(200, |text|) + 3
    ensures r[..|r| - 3] == text[..Min(200, |text|)] && r[|r| - 3..] == "..."
  {
    text[..Min(200, |text|)] + "..."
  }

  /** The cited sources: the first three contexts in retrieval order. */
  function Sources(cs: seq<Context>): (r: seq<SourceRef>)
    ensures |r| == Min(3, |cs|)
    ensures forall i :: 0 <= i < |r| ==>
      r[i] == SourceRef(cs[i].source, Excerpt(cs[i].text), cs[i].score)
  {
    var n := Min(3, |cs|);
    seq(n, i requires 0 <= i < n => SourceRef(cs[i].source, Excerpt(cs[i].text), cs[i].score))
  }

  /** `get_response`. */
  function GetResponse(rag: Rag, query: string, history: seq<Message>): (r: Result<Answer, string>)
    ensures RetrieveContext(rag.search, query).Failure? ==>
      r == Failure(ResponseErrorPrefix + RetrieveContext(rag.search, query).error)
    ensures RetrieveContext(rag.search, query) == Success([]) ==>
      r == Success(Answer(NoInformationReply, []))
    ensures r.Success? && r.value.response != NoInformationReply ==>
      var cs := RetrieveContext(rag.search, query).value;
      && cs != []
      && r.value.sources == Sources(cs)
      && CallLlm(rag.llm, BuildPrompt(cs, history, query, rag.formatScore)) == Success(r.value.response)
    ensures RetrieveContext(rag.search, query).Success? && RetrieveContext(rag.search, query).value != [] ==>
      var cs := RetrieveContext(rag.search, query).value;
      var reply := CallLlm(rag.llm, BuildPrompt(cs, history, query, rag.formatScore));
      && (reply.Failure? ==> r == Failure(ResponseErrorPrefix + reply.error))
      && (reply.Success? ==> r == Success(Answer(reply.value, Sources(cs))))
  {
    match RetrieveContext(rag.search, query)
    case Failure(e) => Failure(ResponseErrorPrefix + e)
    case Success(cs) =>
      if cs == [] then Success(Answer(NoInformationReply, []))
      else
        match CallLlm(rag.llm, BuildPrompt(cs, history, query, rag.formatScore))
        case Failure(e) => Failure(ResponseErrorPrefix + e)
        case Success(reply) => Success(Answer(reply, Sources(cs)))
  }

  /** With nothing retrieved the generation service is never consulted: the
      answer is the same whatever service is configured. */
  lemma EmptyRetrievalSkipsGeneration(rag: Rag, other: LlmService, query: string, history: seq<Message>)
    requires rag.search(query, DefaultTopK) == Success([])
    ensures GetResponse(rag, query, history) == Success(Answer(NoInformationReply, []))
    ensures GetResponse(rag.(llm := other), query, history) == GetResponse(rag, query, history)
  {
  }

  /** The engine's answer depends on the last four history entries only. */
  lemma ResponseSeesLastFourMessages(rag: Rag, query: string, older: seq<Message>, history: seq<Message>)
    requires |history| >= 4
    ensures GetResponse(rag, query, older + history) == GetResponse(rag, query, history)
  {
    match RetrieveContext(rag.search, query)
    case Failure(_) =>
    case Success(cs) =>
      PromptSeesLastFourMessages(cs, older, history, query, rag.formatScore);
      var p := BuildPrompt(cs, history, query, rag.formatScore);
      assert BuildPrompt(cs, older + history, query, rag.formatScore) == p;
      assert CallLlm(rag.llm, BuildPrompt(cs, older + history, query, rag.formatScore)) == CallLlm(rag.llm, p);
  }
}
