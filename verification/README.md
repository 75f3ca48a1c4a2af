# Finance assistant: a verified model

A Dafny model of an assistant that answers questions about company filings. Filings are
parsed into sections and cut into overlapping chunks; the chunks are embedded and searched;
an agent asks a language model, runs the tools it calls and checks every figure of the draft
against what the tools returned; the API limits callers, streams events to the browser,
stores each turn of a conversation and pages through its history; a small router spreads
inference over replicas.

Each module is one component of the program. Code that works by changing things is a method
or a class, proved against a specification function or predicate; the lemmas then prove what
the program promises about that specification.

| module | component |
|---|---|
| `Parser`, `Sentences`, `Chunker` | kept blocks to section text, to paragraphs, sentences and units, to chunks |
| `Units`, `Carry` | what the cuts are: breaks, groups, fragments; and what is joined, carried over and taken for a heading |
| `Filing`, `Headings` | the theorems from one end to the other: words, size and indices; headings and chunks that add nothing |
| `Grounding`, `Evidence`, `Orchestrator` | the figure guard, where its evidence comes from, and the agent loop |
| `AgentRuns`, `Conversations`, `Endings` | what holds of every run: budgets, routing, grounded answers; what the models are told; how a run ends |
| `ToolCalls` | reassembly of streamed tool calls |
| `Untrusted`, `Frames` | the frame around tool results, and its pattern written out |
| `RateLimit`, `Limiter` | the sliding-window script on its sorted set, and the limiter built on it |
| `EventStream` | the event-stream writer and the incremental reader |
| `InferenceRouter`, `RouterRuns` | the replica router, and what holds of every interleaving |
| `TurnStorage`, `History` | storing a turn of a conversation, and reading it back page by page |
| `Judge` | finding a JSON object in a model's reply |
| `Embeddings`, `Retriever` | windows over long texts, pooled encoding, re-ranking |
| `Seqs`, `Text` | sequences; words, splitting, joining and stripping of strings |

What the program takes from elsewhere is a parameter, unconstrained unless said here:

- Numbers that the program holds as floats are `real`; rounding is not modelled.
- The tokenizer, case tables, boilerplate test, number finder, advisory phrases, query
  intent, JSON parser, tools, models and router are functions of their inputs or of the
  iteration and call. Time and fresh identifiers are arguments.
- `EventStream` needs of JSON what `Faithful` says: an object is printed on one line without
  white space at its ends, and parses back to itself.
- `RateLimit` takes the script as atomic, the clock as never going back and members as
  unique. The limit may be 0: the script then reports a reset but never admits.
- `Embeddings` needs of the encoder what `IsEncoder` says: in a batch each input has its own
  vector, of length one. Texts are tokenized and cut at the limit before they reach it.
- `Retriever` gets the filtered corpus in the order of its vector scores.
- In `InferenceRouter` a send ends in one of the outcomes the code names (an answer, a
  refused connection, a timeout, another transport error); a task is not cancelled while it
  is inside a send; and a response's relay is started, ends, and closes without an error. One
  step runs from one await to the next.
- In `TurnStorage` a transaction's commit is one step and gives its connection back; the
  refreshes need one again. Conversation identifiers are not reused. Other handlers hold
  connections, and create, delete and hand over conversations, at any time.

Five promises one might expect do not hold of the code. Each has a lemma with the input that
shows it and lemmas that say when, or how far, the promise holds:

- *Every chunk adds something new.* A chunk whose only fresh unit is a heading repeats its
  predecessor (`Headings.ATextWithARepeatedChunk`), and only such a chunk does
  (`Headings.AddsNothingIff`, `Headings.AddsNothingExactly`). It does not happen where a heading, the unit behind it and an
  overlap fit the target: `Headings.EveryChunkAddsSomething`.
- *Every accepted figure is near a non-zero number.* A returned zero supports any figure
  below 0.001 (`Grounding.TinyFigureIsAccepted`); `Grounding.SupportedIff` says exactly what
  is accepted. Where no tool returned a zero, every number of at least 1.005e-10 is traced:
  `Grounding.TracedWithoutZeros`.
- *A figure is within 0.5 % of its evidence.* De-duplication adds its own 0.5 %
  (`Grounding.DeduplicationWidensTheTolerance`, `Grounding.GroundedNumber`). The 0.5 % is
  kept where no number of the answer is close to an earlier, different one:
  `Grounding.ApartNumbersAreSupported`.
- *A turn is stored once.* An exhausted pool behind a commit makes the retry store it again
  (`TurnStorage.TurnMayBeStoredTwice`), and nothing else does: `TurnStorage.StoredOnceIff`.
- *Following the cursor lists every message.* Identity values are given at the insert and
  seen at the commit, so a late commit is missed (`History.ALateCommitIsMissed`), and only
  such a one: `History.PagingListsEverythingIff`.

## Model

| member | source | states |
|---|---|---|
| `Parser.StitchFragments` | ingestion/parser.py:350-373 | Stitching torn paragraphs moves boundaries and keeps every word in order |
| `Parser.StitchingKeepsWords` | ingestion/parser.py:350-373 | The same of the stitching function, for every list of paragraphs |
| `Parser.StitchingJoinsHalves` | ingestion/parser.py:365-373 | Neighbours are joined with a space exactly if no closing punctuation ends the first and a small letter opens the second |
| `Parser.SectionEndInRange` | ingestion/parser.py:306-310 | A section ends after its heading and inside the filing |
| `Parser.SectionEndIs` | ingestion/parser.py:306-310 | The end is the next marker behind the heading, or the end of the filing if there is none |
| `Parser.KeptPositions` | ingestion/parser.py:394-407 | The kept blocks are those at the positions, in order, that are neither blank nor furniture |
| `Parser.SectionsDoNotOverlap` | ingestion/parser.py:306-310 | Of two sections the earlier is over when the later one's heading comes |
| `Parser.ExtractSection` | ingestion/parser.py:376-416 | A section exists exactly if its marker does; its text has the words, in order, of the blocks behind the heading and before the next marker, or the end, that are neither blank nor furniture |
| `Sentences.SplitSentences` | ingestion/chunker.py:136-151 | Splitting and re-merging at abbreviations keeps the paragraph's words; no sentence is empty |
| `Units.SentencesAre` | ingestion/chunker.py:136-151 | The sentences are the paragraph cut at its breaks, with each piece joined by a space to what it continues, and stripped |
| `Units.PiecesLieBetweenBreaks` | ingestion/chunker.py:46 | Between pieces is white space with an end of sentence before and a start behind, and no piece has such a break inside |
| `Units.ContinuesIff` | ingestion/chunker.py:141-148 | A piece continues what is before it if that ends in an abbreviation, whatever its case and full stops, or the piece begins with a small letter |
| `Text.WordsAreTheRuns` | ingestion/chunker.py:144 | The words of a text are its maximal runs of characters that are no white space |
| `Sentences.BuildUnits` | ingestion/chunker.py:187-216 | The units hold the text's words in order unless a sentence was cut by tokens; every uncut unit fits the target |
| `Sentences.UnitsKeepWords` | ingestion/chunker.py:187-216 | Splitting on blank lines, stripping and sentence splitting together lose no word |
| `Text.SplitAtFirstSeparators` | ingestion/chunker.py:196 | Splitting cuts at the first separator, and again behind it |
| `Text.StripIs` | ingestion/chunker.py:197 | Stripping takes the white space off both ends and nothing else |
| `Units.UnitsAreCutNoFurther` | ingestion/chunker.py:187-216 | Units are paragraph by paragraph, numbered: whole if it fits, else by sentences, and a sentence that does not fit by its tokens |
| `Units.FragmentsAre` | ingestion/chunker.py:172-184 | A hard split decodes the tokens a target at a time, all of them, and flags each part |
| `Chunker.JoinUnits` | ingestion/chunker.py:219-229 | The joined text has exactly the words of its units |
| `Carry.JoinedOfConcat` | ingestion/chunker.py:219-229 | Where units of one paragraph meet is a space, where paragraphs meet a blank line |
| `Carry.HeadingIff` | ingestion/chunker.py:158-169 | A heading is at most 15 tokens, opens with no bullet and ends with no closing punctuation, white space aside |
| `Chunker.OverlapUnits` | ingestion/chunker.py:232-270 | The carry-over fits its budget and repeats the last words of the chunk |
| `Chunker.OverlapFitsAndIsSuffix` | ingestion/chunker.py:232-270 | The same for every list of units, whether whole units or trailing sentences are carried |
| `Carry.BlankIsNoHeading` | ingestion/chunker.py:164-166 | A blank unit is no heading |
| `Carry.OverlapIsLongest` | ingestion/chunker.py:232-270 | The overlap is the longest run of units that fits, or if the last does not fit, the longest run of its sentences; nothing only if not even one fits |
| `Chunker.CloseChunk` | ingestion/chunker.py:295-330 | Flushing renders the chunk without a held heading, carries the overlap and passes the heading on |
| `Chunker.ChunkSection` | ingestion/chunker.py:277-336 | The loop's chunks are the greedy packing of the section's units, numbered from the start |
| `Carry.ChunksBeginWithTheOverlap` | ingestion/chunker.py:319-333 | Each chunk is its units joined and begins with the overlap of the one before |
| `Carry.ChunksAreLabelled` | ingestion/chunker.py:295-317 | Each chunk has the label of its section and the token count of its own text |
| `Filing.PackingIsUnique` | ingestion/chunker.py:319-336 | There is one greedy packing, so the contract of the loop fixes its result |
| `Filing.FreshUnitsAreTheUnits` | ingestion/chunker.py:319-336 | What the chunks bring in, in order, is the section's units: nothing is lost to hold-back or overlap |
| `Filing.PackingConservesWords` | ingestion/chunker.py:277-336 | Each chunk starts with a word-suffix of the previous one, and the rest concatenates to the units' words |
| `Filing.IngestSection` | ingestion/chunker.py:277-336 | From blocks to chunks: with no chunk flagged, the chunks conserve the words of the kept blocks, which the markers and positions describe; indices are contiguous |
| `Filing.UnflaggedChunksMeanNoHardSplit` | ingestion/chunker.py:295-317 | If no chunk is flagged then no sentence was cut by tokens |
| `Filing.ChunkSize` | ingestion/chunker.py:319-335 | With units up to the target a chunk fits it, or is carry-over, one held heading and one unit; no more chunks than units |
| `Headings.AddsNothingIff` | ingestion/chunker.py:319-330 | A flushed chunk adds nothing exactly when its only fresh unit is a heading behind a carry-over |
| `Headings.ChunkMayAddNothing` | ingestion/chunker.py:319-330 | Of three units of two tokens, the second a heading, the second chunk is the first again |
| `Headings.ATextWithARepeatedChunk` | ingestion/chunker.py:277-336 | Chunking the text of a sentence, a heading and a sentence with target 3 and overlap 2 gives three chunks, the second equal to the first |
| `Headings.AddsNothingExactly` | ingestion/chunker.py:319-333 | A chunk adds nothing exactly if it opened with a carry-over, nothing held and a heading, and the unit behind the heading did not fit |
| `Headings.NothingAddedForWantOfRoom` | ingestion/chunker.py:319-330 | A chunk that adds nothing has a heading that, with the overlap and the unit behind it, exceeds the target |
| `Headings.EveryChunkAddsSomething` | ingestion/chunker.py:319-330 | If each heading has room for the overlap and the unit behind it, every chunk adds something |
| `Headings.HeadingsAreNotStranded` | ingestion/chunker.py:319-330 | With no two headings in a row, a chunk followed by another, carry-over included, ends in a heading only if it is that single unit |
| `Filing.ChunkFiling` | ingestion/chunker.py:539-574 | Indices run through the document, no chunk mixes sections, the table is one last chunk; unflagged, the document has every word of its parts once and in order |
| `Filing.TableIsOneChunk` | ingestion/chunker.py:571-572 | The table is one chunk of its own, with its text, label, index and token count |
| `Filing.IngestFiling` | ingestion/parser.py:662-674 | From the blocks of a filing to its chunks: unflagged, they conserve the kept blocks of items 1A and 7, as markers and positions describe them, and the table |
| `Grounding.EvidenceValues` | agent/grounding.py:120-141 | The loop collects the evidence of the successful tool steps |
| `Evidence.EvidenceIff` | agent/grounding.py:98-141 | A number is evidence exactly if a successful step of no control tool has it at some path of its result: as a number, or in a text, keys included, as value times scale |
| `Evidence.GuardNumbersAre` | agent/grounding.py:64-82 | The rescalings, the fewer for computed values, and the limit of 120 numbers |
| `Evidence.CombinationsIff` | agent/grounding.py:164-172 | One step makes the product, the sum, both differences and the quotients there are |
| `Grounding.FindDerivation` | agent/grounding.py:156-176 | Looking at each unordered pair once finds every value that one arithmetic step reaches |
| `Grounding.AnswerFigures` | agent/grounding.py:186-208 | The figures are the candidates not close to an earlier figure |
| `Evidence.FiguresAreNumbers` | agent/grounding.py:186-208 | The figures are numbers of the answer in order, percentages unscaled, none close to one before it |
| `Evidence.UnsupportedIff` | agent/grounding.py:211-214 | The figures named are exactly those not supported |
| `Evidence.CloseIff` | agent/grounding.py:144-147 | Close is within 0.5 % of a number, or below 1e-12 of 0 |
| `Grounding.SupportedIff` | agent/grounding.py:144-183 | A value is accepted exactly when it traces to a non-zero value within 0.5 %, or a zero reaches it |
| `Grounding.TinyFigureIsAccepted` | agent/grounding.py:144-153 | With 0 as the only evidence, 0.0005 is accepted though near no non-zero value |
| `Grounding.TolerancesCompose` | agent/grounding.py:144-147 | Close to a value that is close to a target is within 1.0025 % of the target |
| `Grounding.EveryNumberHasAFigure` | agent/grounding.py:186-208 | De-duplication drops a number only for a figure it is close to |
| `Grounding.GroundedNumber` | agent/grounding.py:186-214 | If nothing is unsupported, each number is traced within 1.0025 %, or within reach of a zero a tool returned or, with at most 120 numbers, of one a subtraction makes |
| `Grounding.TracedWithoutZeros` | agent/grounding.py:144-214 | Where no tool returned a zero, each number of at least 1.005e-10 is traced; with over 120 numbers, each number whatever its size |
| `Grounding.ApartNumbersAreSupported` | agent/grounding.py:186-214 | If no number is close to an earlier, different one, each number is supported in its own right, within 0.5 % |
| `Grounding.DeduplicationWidensTheTolerance` | agent/grounding.py:186-214 | 1005 and 1010.025 pass with 1000 as evidence, though 1010.025 alone does not |
| `Untrusted.DefangIsEscaped` | agent/untrusted.py:60-74 | Substituting from match to match escapes each `<` that opens a boundary, and no other |
| `Untrusted.DefangedIsBoundaryFree` | agent/untrusted.py:67-74 | A defanged text contains no boundary anywhere |
| `Untrusted.DefangUnchangedIff` | agent/untrusted.py:67-74 | A text is unchanged exactly if it has no boundary |
| `Frames.DefangKeepsTheText` | agent/untrusted.py:67-74 | Every character stays in its place, but the `<` of a boundary becomes `&lt;` |
| `Frames.OpensBoundaryIff` | agent/untrusted.py:60 | A boundary is `<`, white space, perhaps a `/` and white space, and the name in any case |
| `Untrusted.DefangIsIdempotent` | agent/untrusted.py:67-74 | Defanging twice is defanging once |
| `Untrusted.WrappedBoundary` | agent/untrusted.py:77-91 | The boundaries of a wrapped result are its two tags and those in the tool's name |
| `Untrusted.FrameIsSoundIff` | agent/untrusted.py:77-91 | There are exactly the two tags if and only if the name has no boundary, whatever the payload |
| `Untrusted.ReadingBetweenTheTags` | agent/untrusted.py:77-91 | Between the tags is exactly the defanged payload |
| `Frames.WrappedSaysItsTool` | agent/untrusted.py:62-64 | A wrapped result opens with the name of its tool |
| `Orchestrator.AskModels` | agent/orchestrator.py:618-691 | Router first if it drives, the larger model if it has no call; the requests sent and the reply taken |
| `Orchestrator.RunTools` | agent/orchestrator.py:869-918 | One step and one framed message per executed call, in order; whether any failed |
| `Orchestrator.RunAgent` | agent/orchestrator.py:484-981 | The loop is the run of the state machine; a budget below one is an error |
| `AgentRuns.IterationKeeps` | agent/orchestrator.py:618-958 | One iteration leads from the invariant to the invariant, or to a final outcome |
| `AgentRuns.EveryRunIsFinal` | agent/orchestrator.py:484-981 | Every run ends in a final outcome within its iterations |
| `Endings.RunsEndRightly` | agent/orchestrator.py:695-978 | How a run ends is what its last reply has it be: answer, stop reason, completion and closing steps for each case, written out |
| `Endings.AdviceIsNeverAnswered` | agent/orchestrator.py:781-811 | A run stopped for advice answers with the redirection; the blocked draft, which has an advisory phrase, is in its own step only |
| `Endings.UnverifiedFiguresAreNamed` | agent/orchestrator.py:746-764 | A run that ends with unverified figures answers with the caveat first |
| `Endings.EachIterationAsksRightly` | agent/orchestrator.py:618-691 | Each iteration asks the router if it drives and the larger model behind it if it has no tool call, and takes what they replied; router calls are counted |
| `Endings.StepsAreOfTheirCalls` | agent/orchestrator.py:869-887 | Each tool step has the outcome of its own call, or is a failure if the arguments do not parse |
| `Endings.FindingsAreEachOnes` | agent/orchestrator.py:475-481 | The findings are a line for each successful step in order, and nothing of a failed one |
| `Endings.NamesAreEachOnes` | agent/orchestrator.py:730-764 | A caveat or a correction names each of the figures, in order |
| `Conversations.EveryRequestIsWellFormed` | agent/orchestrator.py:558-958 | At a request of iteration i the messages are the opening and exactly i - 1 blocks, each what its iteration wrote on the reply it took: the calls with all their results, or an unsupported draft with its correction |
| `Conversations.BlockWrittenOut` | agent/orchestrator.py:730-744 | Written out: a call is answered under its id and name with its own framed result, a draft thrown away by the figures that were wrong |
| `Conversations.OpeningIs` | agent/orchestrator.py:558-562 | The opening is the prompt, the history as it is, and the question |
| `Conversations.OneReplyEach` | agent/orchestrator.py:618-691 | An iteration takes one reply at most, so those replies are the ones taken |
| `Conversations.NothingFollowsAnOverrun` | agent/orchestrator.py:846-958 | Every reply but the last asks for no more calls than the budget: an over-budget iteration never reaches another request |
| `AgentRuns.RunBudgets` | agent/orchestrator.py:618-958 | At most two requests in each iteration; the handled calls are a prefix within the budget; at most one discard, and one before "unverified_figures" |
| `AgentRuns.WhenTheRouterDrives` | agent/orchestrator.py:618-653 | The router is asked exactly when configured and the previous iteration had no failed call and no discard |
| `AgentRuns.CompletedAnswersAreGrounded` | agent/orchestrator.py:695-831 | Completed means "final_answer": non-empty, no advisory phrase, every number grounded in the successful tool steps of the run |
| `AgentRuns.CompletedWithoutZeros` | agent/orchestrator.py:695-831 | In a completed run whose tools returned no zero, each number of at least 1.005e-10 is traced |
| `AgentRuns.CompletedAndApart` | agent/orchestrator.py:695-831 | In a completed run, numbers apart from each other are each supported within 0.5 % |
| `ToolCalls.Accumulator.Merge` | agent/orchestrator.py:175-194 | One delta extends the call at its index: id and name replaced, arguments appended |
| `ToolCalls.EachCallIsItsOwn` | agent/orchestrator.py:175-194 | What is at an index depends only on the fragments with that index |
| `ToolCalls.AssembledIs` | agent/orchestrator.py:188-194 | A call has the last id and name it was given, and its arguments are all the pieces in order |
| `ToolCalls.CallsInIndexOrder` | agent/orchestrator.py:280 | The calls are those at all indices, from the lowest to the highest, whatever is missing |
| `ToolCalls.InterleavingIsInvisible` | agent/orchestrator.py:175-194 | Arrivals with the same fragments per index accumulate to the same message |
| `ToolCalls.Reassembly` | agent/orchestrator.py:278-281 | Any list of calls cut into fragments and interleaved anyhow comes back as it was |
| `ToolCalls.StreamMessage` | agent/orchestrator.py:232-281 | The loop assembles the message of the whole stream |
| `ToolCalls.MessageIsItsPieces` | agent/orchestrator.py:232-281 | The content is the pieces of content in the order they came, and so with the fragments |
| `ToolCalls.MessageComesBack` | agent/orchestrator.py:232-281 | A text cut into pieces and calls cut into interleaved fragments come back as they were, in whatever chunks |
| `ToolCalls.RouterMessage` | agent/orchestrator.py:284-336 | Giving up at the first prose returns what reading the whole stream would have |
| `RateLimit.SweepKeeps` | api/rate_limit.py:61-62 | Expiry and eviction leave exactly the admissions inside the new window |
| `RateLimit.AdmitKeeps` | api/rate_limit.py:64-74 | The conditional insert and the refreshed expiry keep the set in step with the log of all admissions |
| `RateLimit.VerdictIs` | api/rate_limit.py:64-84 | The answer read off the set is the one the plain log gives |
| `RateLimit.Bucket.Script` | api/rate_limit.py:55-85 | The script decides as the log of every admission would; eviction and expiry are never observable |
| `Limiter.ResetSeconds` | api/rate_limit.py:184-190 | Whole seconds, at least one, enough for the wait and none more |
| `Limiter.RateLimiter.Check` | api/rate_limit.py:160-190 | The decision of the log, or the policy if the call fails; the request is logged unless the call never reached the script |
| `Limiter.RunKeeps` | api/rate_limit.py:55-85 | After any run the log is sorted, in the past, and spaced: limit admissions never share a window with one more |
| `Limiter.NoIntervalHoldsMore` | api/rate_limit.py:55-85 | Over any run every half-open interval of window length holds at most limit admissions |
| `Limiter.DenialIsExact` | api/rate_limit.py:61-84 | After a denial a request is admitted exactly from the reset on, and not before, when the reset is where it was; never with limit 0 |
| `Limiter.AdmissionResetIsExact` | api/rate_limit.py:76-82 | After an admission as many admissions count until the reset as now, and from then on fewer |
| `Limiter.TryingDoesNotMoveTheReset` | api/rate_limit.py:61-84 | In any run of requests from a denial to its reset each is denied and reports the same moment of reset |
| `Limiter.AdvertisedWaitSufficesIff` | api/rate_limit.py:184-190 | Waiting the advertised seconds after a denial, however often it was tried before the reset, is enough exactly when the limit is not 0 |
| `Limiter.RemainingIsExact` | api/rate_limit.py:61-84 | After an admission exactly `remaining` more requests at that instant are admitted |
| `EventStream.AskStream` | frontend/src/lib/api.ts:298-329 | The events yielded are a function of the concatenated reads, wherever they were cut |
| `EventStream.DrainBuffer` | frontend/src/lib/api.ts:308-324 | Draining yields the events of the whole frames and leaves the rest in the buffer |
| `EventStream.EventsOfConcat` | frontend/src/lib/api.ts:303-325 | Reading two texts one after the other is reading them joined, also with the cut inside a separator |
| `EventStream.EventsAreOfTheFrames` | frontend/src/lib/api.ts:308-312 | The events of any text are those of the frames that blank lines divide it into, in order, but for the last part |
| `EventStream.FrameEventsAreOfTheLines` | frontend/src/lib/api.ts:312-323 | The events of a frame are those of its lines, in order |
| `EventStream.DataLineGives` | frontend/src/lib/api.ts:313-322 | A line that begins with `data:` gives what the rest, trimmed, parses to |
| `EventStream.OtherLinesGiveNothing` | frontend/src/lib/api.ts:313-315 | Any other line, and an empty one, gives nothing |
| `EventStream.StreamRoundTrip` | api/routes.py:263-266 | The frames of any events, cut anyhow, read back as those events in order |
| `EventStream.CutStreamYieldsWholeFrames` | frontend/src/lib/api.ts:303-325 | A stream lost inside a frame has yielded the events before it and nothing else |
| `InferenceRouter.RoundRobin.Order` | inference_router/app.py:80-89 | The rotation from the next start, which moves once a request |
| `InferenceRouter.RoundRobin.Acquire` | inference_router/app.py:91-99 | One more in flight, the peak raised if passed, a needless queue counted |
| `InferenceRouter.RoundRobin.Release` | inference_router/app.py:101-102 | One less in flight and nothing else |
| `RouterRuns.RotationIsComplete` | inference_router/app.py:80-89 | A rotation names every upstream exactly once |
| `RouterRuns.CountersAreAccounts` | inference_router/app.py:161-224 | In every run `in_flight`, `requests` and `connect_failures` count the outstanding, answered and refused requests |
| `RouterRuns.QuiescenceFreesEverySlot` | inference_router/app.py:161-224 | With nothing outstanding every `in_flight` is zero |
| `RouterRuns.PeakIsTheMaximum` | inference_router/app.py:91-99 | `peak_in_flight` is the maximum over all moments of the run |
| `RouterRuns.BusyWhileIdleCounts` | inference_router/app.py:91-99 | `busy_while_idle` counts exactly the generations sent to a busy upstream while another was idle |
| `RouterRuns.NeverSentTwice` | inference_router/app.py:168-206 | A request past connecting is never sent to another upstream |
| `RouterRuns.RefusedAtIff` | inference_router/app.py:174-182 | A request counts an upstream as having refused it exactly if there was an event at which it was there and was refused |
| `RouterRuns.UnavailableIffAllRefused` | inference_router/app.py:168-206 | 503 is answered exactly when each upstream has refused the request in an event of the run |
| `RouterRuns.AnswersTellWhatHappened` | inference_router/app.py:174-198 | Relayed exactly if an upstream answered, 504 if it timed out, 502 if it failed otherwise |
| `RouterRuns.FirstTurnsAreFair` | inference_router/app.py:80-89 | After m requests each upstream had floor(m/n) or ceil(m/n) first turns |
| `TurnStorage.HeldConnections` | api/routes.py:159-232 | Held connections are those of asks reading, checking, writing or refreshing, never more than the pool; thinking holds none |
| `TurnStorage.BothMessagesOrNeither` | api/routes.py:116-155 | A conversation holds whole turns of an ask, once per commit, or nothing of it |
| `TurnStorage.QuestionAndAnswerByTurns` | api/routes.py:128-150 | Written out: two messages for each commit, the question and then the answer, by turns, and in no other conversation any |
| `TurnStorage.ReturnedMeansItIsThere` | api/routes.py:152-155 | When an ask returns, its question and answer are in its conversation |
| `TurnStorage.NoRunBeforeAnOwnedRead` | api/routes.py:189-199 | An agent runs only for a conversation that was found its user's |
| `TurnStorage.OnlySuccessfulRunsAreWritten` | api/routes.py:200-215 | Only the turn of a run that succeeded is written |
| `TurnStorage.CommitFollowsOwnedReRead` | api/routes.py:77-113 | A commit follows a re-read of the same attempt that found the conversation still the asker's |
| `TurnStorage.EveryAskIsSound` | api/routes.py:77-155 | In every interleaving each attempt stores at most one copy, and a second only behind a late exhaustion |
| `TurnStorage.LateIff` | api/routes.py:147-155 | An ask counts a late exhaustion exactly if at some event its refresh found no connection free after its commit |
| `TurnStorage.StoredOnceIff` | api/routes.py:77-155 | A returned write stored the turn once exactly if at no event of the run an exhaustion struck after its commit; never more than `attempts` copies |
| `TurnStorage.TurnMayBeStoredTwice` | api/routes.py:147-155 | A run in which the pool is exhausted before the refresh and the turn is stored twice |
| `TurnStorage.StoreTurnInNewSession` | api/routes.py:54-113 | The loop leaves the ask as its attempts do, one after another up to the first that is not exhaustion; its delays double |
| `TurnStorage.WaitsDouble` | api/routes.py:77-113 | The delays are half a second, one and two |
| `TurnStorage.FinishedWriteIsTheLoops` | api/routes.py:54-155 | In every interleaving a finished write ended as the retry loop does for the outcomes its attempts had in the events of the run: same end, attempts and copies |
| `Judge.Balanced` | eval/judge.py:236-257 | The one-pass scanner finds the extent that the recursive definition gives |
| `Judge.SkipsJson` | eval/judge.py:236-257 | Inside an object the scanner passes over any JSON, strings with braces and escapes included |
| `Judge.BalancedIsTheObject` | eval/judge.py:236-257 | From the brace that opens a printed object the block is that object, whatever is before and after |
| `Judge.CutOffObjectNeverCloses` | eval/judge.py:236-257 | An object that is cut off anywhere has no block |
| `Judge.Salvage` | eval/judge.py:287-292 | The salvaged claims are those that parse, in order |
| `Judge.SalvagedAreEachOnes` | eval/judge.py:287-292 | What is salvaged is each claim that parses, in order |
| `Judge.ParseJudge` | eval/judge.py:260-295 | The document's claims if they are a list, else the salvaged ones, else the error |
| `Judge.UnfencedReplyYieldsItsClaims` | eval/judge.py:260-295 | An unfenced reply with no earlier brace yields the printed object's claims, whatever follows |
| `Judge.ReplyYieldsItsClaims` | eval/judge.py:270-283 | Fenced or not, a reply with no earlier brace yields the claims of the printed object, whatever follows |
| `Judge.NoWholeReply` | eval/judge.py:273-285 | With no brace, no closed object or no list of claims there is no whole reply |
| `Embeddings.Pieces` | rag/embeddings.py:112-125 | Cutting at every stride and popping a covered last piece leaves ceil((n - V)/(B - V)) windows |
| `Embeddings.PoppedPieceWasCovered` | rag/embeddings.py:121-124 | The popped piece is a suffix of its predecessor |
| `Embeddings.WindowsFit` | rag/embeddings.py:112-125 | Every window is longer than the overlap and at most the body; all but the last are full |
| `Embeddings.WindowsSlide` | rag/embeddings.py:112-125 | Neighbours share exactly the overlap, others nothing, none lies inside another |
| `Embeddings.NeighboursRepeat` | rag/embeddings.py:107-109 | The last overlap tokens of a window are the first of the next |
| `Embeddings.WindowsCoverTheText` | rag/embeddings.py:100-125 | Without the repeated tokens the windows concatenate to the text |
| `Embeddings.Windows` | rag/embeddings.py:100-125 | The decoded windows, or the text itself if it fits |
| `Embeddings.NoWindowIsTruncatedIff` | rag/embeddings.py:74-84 | Every window is read to its end exactly when each, decoded and tokenized again, has no more tokens than the body |
| `Embeddings.NothingIsTruncated` | rag/embeddings.py:100-109 | If windows tokenize as they were cut, what reaches the encoder is every token of the text, without the repeats |
| `Embeddings.Forward` | rag/embeddings.py:70-97 | One vector per text, of its tokens up to the limit, for every batch size |
| `Embeddings.Flatten` | rag/embeddings.py:139-146 | Segments and owners list each text's own windows, in order |
| `Embeddings.NoneCutIff` | rag/embeddings.py:150-151 | The early return is taken exactly when every text fits the encoder |
| `Embeddings.NothingToPool` | rag/embeddings.py:150-151 | The early return gives what pooling would have given |
| `Embeddings.Scatter` | rag/embeddings.py:153-155 | Each row is the sum of the vectors its text owns |
| `Embeddings.PooledAt` | rag/embeddings.py:153-157 | Written out: coordinate by coordinate the sum over the windows, over the length of that sum or 1e-12 |
| `Embeddings.SquaresAre` | rag/embeddings.py:156 | The square of a vector's length is the sum of its squared coordinates |
| `Embeddings.PooledOfOne` | rag/embeddings.py:150-157 | A text that is not cut has the vector of its one window |
| `Embeddings.Encode` | rag/embeddings.py:128-157 | Each text's vector is the normalised sum of its own windows, whatever the other texts, batches and branch |
| `Embeddings.EmbedPassages` | rag/embeddings.py:160-185 | Progress reports change nothing but the reports, which end at the number of texts |
| `Embeddings.PooledIsAUnitVector` | rag/embeddings.py:156-157 | A vector has length one exactly when its windows do not cancel below 1e-12 |
| `Retriever.LexicalScoreIs` | rag/retriever.py:152-163 | The number of terms that occur over the number of terms, or 0 if there are none |
| `Retriever.LexicalScore` | rag/retriever.py:152-163 | A share in [0, 1], one exactly when every term occurs |
| `Retriever.ScoreAddsUp` | rag/retriever.py:174-182 | The score is the vector score, 0.06 of the share and 0.09 for a table if a figure is wanted; the rest of the hit stays |
| `Retriever.BonusIsBounded` | rag/retriever.py:91-92 | Re-ranking adds between nothing and 0.15, less if the query names no term or wants no figure |
| `Retriever.RankedIsAStableSort` | rag/retriever.py:184 | The ranking is a permutation, highest first, ties in the order given |
| `Retriever.Rerank` | rag/retriever.py:166-185 | The loop's result is the top k of the stable ranking of the re-scored hits |
| `Retriever.NeverOverrulesTheEncoder` | rag/retriever.py:88-92 | No hit is above one whose vector score is higher by more than the bonus, at most 0.15 |
| `Retriever.ATableClosesAGapOf` | rag/retriever.py:166-185 | A table with all terms passes a passage with none exactly when less than 0.15 behind |
| `Retriever.NoTermsNoReordering` | rag/retriever.py:166-185 | A query without a statement term keeps the encoder's order and scores |
| `Retriever.PoolSufficesIff` | rag/retriever.py:94-98 | A pool's top k is everything's top k exactly when nothing outside scores above its k-th |
| `Retriever.SearchReadsTheWholeCorpus` | rag/retriever.py:242-262 | A search answers as if all were re-ranked if the corpus has at most 30 or 6k hits, or the k-th score beats the last of those fetched by 0.15 |
| `Retriever.SearchFilings` | rag/retriever.py:200-262 | The error for a blank query, else the top k, cut by the threshold after re-ranking |
| `Retriever.ThresholdCutsTheTail` | rag/retriever.py:260-261 | The threshold keeps a prefix: all at or above it and nothing below |
| `History.Conversation.AppendMessage` | api/routes_chat.py:56-81 | The message added, the activity set, a title only if there was none and a user speaks |
| `History.TitlesAreOneShortLine` | api/routes_chat.py:84-88 | A title is never empty, never over 200 characters, never more than one line |
| `History.LineBreaksAre` | api/routes_chat.py:87 | The characters a line ends at |
| `History.TitleIs` | api/routes_chat.py:84-88 | A title is the first line of the stripped message, cut to 199 characters and an ellipsis if over 200 |
| `History.TheFirstUserMessageNamesTheThread` | api/routes_chat.py:77-81 | An untitled thread is named by its first user message and keeps that name |
| `History.PageFollowsCursor` | api/routes_chat.py:151-163 | A page is what lies between its two cursors, or all the rest if there is no next one |
| `History.PagingListsEverythingIff` | api/routes_chat.py:151-163 | Following the cursor to the end lists the last snapshot exactly if nothing came to light behind a cursor |
| `History.PagingListsWhatIsAppended` | api/routes_chat.py:151-163 | Messages appended between reads, up to the last page, are listed once and in order with the rest |
| `History.ListedOnceInOrder` | api/routes_chat.py:151-163 | Whatever is committed meanwhile, nothing is listed twice or out of order |
| `History.WalkEnds` | api/routes_chat.py:157-160 | A walk over n messages that nobody adds to has no next cursor after exactly n / limit + 1 pages, and never goes on |
| `History.ALateCommitIsMissed` | api/routes_chat.py:156-161 | A message that commits after a later one was read is never listed |

## Left out

- IngestSection: promises word conservation only when no chunk is flagged, because the text decoded from a token slice depends on the tokenizer.
- ApartNumbersAreSupported: one way only, because a number that de-duplication drops can still be within 0.5 % of other evidence.
- EveryChunkAddsSomething: a condition on the units alone, one way only; `Headings.AddsNothingExactly` is exact and needs what was carried over.
- Check: one caller's bucket and a fixed limit; the key names of several callers are not modelled.
- NeverSentTwice: covers the outcomes the router names; cancellation in the middle of a send is handled by no branch of the code.
- CommitFollowsOwnedReRead: says nothing about changes of ownership between the re-read and the commit, which the code does not lock against.
- AskStream: takes the reads as decoded text; the streaming decoder of bytes is not modelled.
- NothingIsTruncated: needs windows to tokenize as they were cut, which one that starts inside a word need not; `Embeddings.NoWindowIsTruncatedIff` is exact for whether `Forward` drops tokens.
- SearchFilings: the SQL filters and the approximate index are not modelled; the corpus is the filtered one in exact vector order.
- Orchestrator: emitted events, latencies, token usage, deadlines and the wording of messages; texts the program writes are only as long as the proofs need.
- HTML parsing, section markers, boilerplate detection, table detection, captions and figures in tables.
- The patterns of the number finder, the advisory phrases and the query intent.
- agent/memory.py, eval/compare.py, core/retry.py, the request throttle of the EDGAR client, and the rest of eval/judge.py: correct but short.
- Prices, ratios and news, authentication, configuration, migrations, user interface components, benchmarks and scripts.
- HTTP, Redis, Postgres and their drivers beyond the sorted set, the connection pool and atomic commit; driver errors other than an exhausted pool and a failed foreign key.
