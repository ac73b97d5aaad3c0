# Verification models of the RAG service

Dafny models of the algorithms and state machines of the service that do not depend on a
language model, on HTTP or on a database engine, with proofs about every input, every run and
every interleaving. `dafny verify dfyconfig.toml` checks the whole project.

- `Graph.dfy`: the bounded breadth-first traversal of the knowledge graph and the choice of
  its start nodes.
- `Markdown.dfy`, `LineLaws.dfy`, `Sections.dfy`, `Splitter.dfy`, `Breaks.dfy`,
  `SectionFences.dfy`, `DocumentText.dfy`: lines, fences, sections, the overlapping splitter,
  and these together.
- `VectorSearch.dfy`, `SearchLaws.dfy`: the widening nearest-neighbour search against the
  exhaustive one.
- `Turns.dfy`, `Context.dfy`, `ContextLaws.dfy`, `ContextMaxima.dfy`, `ContextTexts.dfy`: the
  conversation context under a character and a UTF-8 byte budget.
- `Summary.dfy`, `SummaryChoice.dfy`, `SummaryLaws.dfy`, `SummaryRuns.dfy`,
  `SummaryLimits.dfy`: the incremental conversation summary, with messages arriving while the
  worker refreshes.
- `ResourceCache.dfy`, `CacheLaws.dfy`, `CacheRecency.dfy`: the session resource cache.
- `AskLifecycle.dfy`, `AskAlone.dfy`, `AskLaws.dfy`: the slots of ask requests across handlers,
  workers and done callbacks.
- `Identity.dfy`, `IdentityLaws.dfy`, `IdentityAlone.dfy`, `IdentityTokens.dfy`,
  `IdentitySessions.dfy`, `IdentityHistory.dfy`, `IdentityResets.dfy`, `IdentityUnlock.dfy`,
  `IdentityPasswords.dfy`, `IdentityRuns.dfy`: users, sessions and one-time tokens.
- `SlidingWindow.dfy`, `RateLimiter.dfy`, `LoginThrottle.dfy`, `Quota.dfy`: admission control.
- `Fusion.dfy`, `FusionLaws.dfy`, `Reranking.dfy`, `RankingLaws.dfy`: rank fusion, reranking and
  its metrics.
- `Text.dfy`, `Utf8.dfy`, `Sorting.dfy`, `Filtering.dfy`, `Numbers.dfy`, `Options.dfy`,
  `Seqs.dfy`: what the modules share.

Code that updates state is modelled as classes and loops whose methods equate the new state
with a specification function of the old one; runs and interleavings are folds of those
functions over arbitrary lists of events. Beside the functions that follow the code stand
statements that do without them: on the fields of an edge, the characters of a text, the
places in a list, or the operations of a run.

Where the code and what it documents part, the model follows the code:

- `conversation/context.py` promises through `truncated=False` that nothing was left out. That
  holds exactly when there is a complete turn, or neither a summary nor a relevant turn.
- `conversation/summary.py:146-147` says that the bounded window advances coverage gradually.
  A full window with fewer complete turns than the trigger, or whose first turn exceeds the
  source budget, stops the summary for good; so does a trigger above the batch size plus one.
- The two reads of a summary refresh are separate statements. Turns that complete between
  them make coverage pass over a turn that was counted as recent, unless the batch size or the
  source budget ends before it.
- Messages take their creation time before their id. The first read of a refresh sorts by the
  one, the second by the other, so that a turn whose times are late can be passed over as well.
- A section is dropped as a lone heading when its text holds no newline, although other line
  breaks may separate the heading from a body.
- Section paths are built by a slice assignment, which nests siblings under each other after a
  skipped heading level.
- A row put into the resource cache over an existing key keeps its creation time, and can be
  the row evicted by that very put.
- Widening keeps the distances of the exhaustive search, not always its rows: a tie at the
  store's limit decides differently.
- A handler that meets an exception of the quota or message store never gives its slots back.
- A token is checked for supersession and expiry when it is looked up, not when it is consumed:
  `auth/identity.py:243-250` promises that after an admin reset only the reset token restores
  the login, but a token looked up before still does, and so does an activation token that a
  disabled user never used.
- A login checks the user and inserts its session in separate statements. `auth/identity.py:243-250`
  promises that a reset revokes every session at once; the session of a login that passed its
  checks before it is inserted after it and resolves.
- A change of password that passed its check before a reset is still made after the reset token
  has been consumed, and replaces the password set with that token.
- A quota refund uses the minute of the refund.
- With a limit that is not positive the rate limiter and the login throttle fail on the minimum
  of an empty list instead of reporting that it is exceeded.

Assumptions: times are integers or reals and the clock does not go back within a history
(ISO texts in UTC order like the instants they stand for), except that the creation times of
messages are arbitrary; scores, weights and distances are reals; message ids grow; hashes are
injective and fresh secrets do not repeat; a database transaction and a single statement are
atomic. SQL text, connections, embeddings, model calls and HTTP appear only as parameters of
the models.

## Model

| member | source | states |
|---|---|---|
| GraphTraversal.BallIsWalks | src/zglab_rag/retrieval/graph.py:87-121 | The ball of radius k is exactly the set of nodes joined to a start by a walk of at most k edges, each followed from its source to its target or from its target to its source |
| GraphTraversal.NeighborIsAdjacent | src/zglab_rag/retrieval/graph.py:112-118 | The neighbours of a set are the nodes that some edge joins to one of its members, as its source or as its target |
| GraphTraversal.AdjacentIsFarEnd | src/zglab_rag/retrieval/graph.py:112-118 | Whatever an edge joins to a node in either direction is the far end of one of the rows read for it |
| GraphTraversal.RowsOfOne | src/zglab_rag/retrieval/graph.py:97-101 | An edge is a row of a node exactly when the node is its source or its target |
| GraphTraversal.RowsInOrder | src/zglab_rag/retrieval/graph.py:97-101 | The rows come in the order of the table, each as often as it is listed |
| GraphTraversal.RecordEdge | src/zglab_rag/retrieval/graph.py:104-111 | Recording an edge keeps the documents, sections and chunks equal to the distinct non-empty references of the edges read so far, in first-seen order, documents up to their cap |
| GraphTraversal.FirstDistinctIsDistinct | src/zglab_rag/retrieval/graph.py:106-111 | The provenance lists hold each reference once, and every reference that occurs |
| GraphTraversal.FirstDistinctInOrder | src/zglab_rag/retrieval/graph.py:106-111 | The provenance lists are in order of first occurrence |
| GraphTraversal.ReadRows | src/zglab_rag/retrieval/graph.py:101-121 | Following the rows of one node: the rows read are the longest prefix the edge cap allows, the new nodes are exactly the unvisited far ends admitted by the node cap, and the queue is emptied when the edge cap stops the reading |
| GraphTraversal.FoundIsNext | src/zglab_rag/retrieval/graph.py:112-121 | Following rows discovers exactly the next far ends in the order of reading, each once, up to the node cap |
| GraphTraversal.ExpandKeepsInv | src/zglab_rag/retrieval/graph.py:94-121 | The breadth-first layer invariant (queue hops are d then d+1, every label is attained by a walk) survives the expansion of a node, whether or not a cap cuts it |
| GraphTraversal.ExactSearch | src/zglab_rag/retrieval/graph.py:94-121 | A finished search that refused nothing labels every node of the ball with its shortest distance and visits nothing else |
| GraphTraversal.FinishedFillsTheCap | src/zglab_rag/retrieval/graph.py:94-121 | If the edge cap is not below what the inner ball demands, the number of visited nodes is the smaller of the ball and the node cap |
| GraphTraversal.DemandOfOrder | src/zglab_rag/retrieval/graph.py:94-104 | Reading each node of a set once reads as many rows as the set demands, each edge once per endpoint in the set |
| GraphTraversal.Explore | src/zglab_rag/retrieval/graph.py:87-121 | The loop ends, and its result is a run of the abstract search with the recorded provenance |
| GraphTraversal.Traverse | src/zglab_rag/retrieval/graph.py:87-121 | All caps are kept (nodes: the larger of the cap and the number of starts). The nodes visited are the starts and then the far ends of the rows read, in order and each once, up to the cap, and they are expanded in this order; below the edge cap every row of an expanded node is read. When no cap bites the visited nodes are exactly those that walks of at most the hop limit reach, with shortest distances, and the edges read are all rows of those nearer than the limit |
| GraphTraversal.VisitedIffWalkedTo | src/zglab_rag/retrieval/graph.py:87-121 | A traversal that stayed below its caps visited exactly the nodes that walks of at most the hop limit reach |
| GraphTraversal.LabelledWithTheLeast | src/zglab_rag/retrieval/graph.py:94-121 | It labelled no node with more hops than some walk from a start takes |
| GraphTraversal.ReadIffNear | src/zglab_rag/retrieval/graph.py:94-104 | It read exactly the edges with an end that a walk of less than the hop limit reaches |
| GraphTraversal.ResolveEntities | src/zglab_rag/retrieval/graph.py:54-78 | The start nodes are those of the greedy winners: an alias wins exactly when its first occurrence exists, overlaps no earlier winner and names a new node, up to the cap |
| GraphTraversal.WinsIff | src/zglab_rag/retrieval/graph.py:64-78 | Below the cap an alias wins exactly when the question reads it somewhere and no earlier winner has its node or, where both are first read, shares a character with it |
| GraphTraversal.LongestAliasWins | src/zglab_rag/retrieval/graph.py:57-78 | With aliases longest first, an alias that loses below the cap loses to one at least as long that has its node or shares a character with it; no two winners share a character |
| GraphTraversal.TraverseFromQuestion | src/zglab_rag/retrieval/graph.py:80-121 | The traversal starts from the entities resolved in the question and does what the traversal from them does; there are none exactly when the question reads no alias, and then nothing is visited or read |
| Markdown.SplitLinesLosesNothing | src/zglab_rag/ingestion/chunking.py:72-72 | Splitting with kept line ends concatenates back to the text |
| LineLaws.LinesStartAfterBreaks | src/zglab_rag/ingestion/chunking.py:72-72 | A line starts at the beginning of a text and where a line break ends, a carriage return and line feed being one, and nowhere else |
| Markdown.FenceMarkerIff | src/zglab_rag/ingestion/chunking.py:11-11 | A line is a fence marker of a kind and length exactly when it is up to three blanks or tabs, the run of that many marks, at least three, and a rest that does not go on with the mark; bare when the rest is white space |
| Markdown.HeadingLevelIff | src/zglab_rag/ingestion/chunking.py:10-10 | A line is a heading of a level exactly when it is up to three blanks or tabs, one to six number signs of that number, and a blank or tab |
| Markdown.HeadsIff | src/zglab_rag/ingestion/chunking.py:72-85 | A line starts a section exactly when it lies in no fenced block and matches the heading pattern |
| Markdown.FencedIffInBlock | src/zglab_rag/ingestion/chunking.py:109-129 | Without the scan: a block is opened by a marker outside every block and ends after the first later line that is a bare marker of its kind and at least its length, or at the end of the text; exactly the lines of blocks are fenced |
| Markdown.RescanFromClosed | src/zglab_rag/ingestion/chunking.py:109-129 | Scanning a part of a document that starts outside every fence gives the fence states of the whole-document scan |
| Sections.ReadLine | src/zglab_rag/ingestion/chunking.py:72-82 | One line moves the fence state as the scan does, and is a heading only outside a fence; which lines that are is said by `Markdown.FencedIffInBlock` and `Markdown.HeadsIff` |
| Sections.ParseSections | src/zglab_rag/ingestion/chunking.py:59-94 | The sections are the flushed buffers between headings, each under the heading stack of its first line |
| Sections.FlushedIff | src/zglab_rag/ingestion/chunking.py:67-70 | A buffer is flushed to exactly one section with its stripped text when that holds a newline or does not match the heading pattern, and is dropped otherwise or when nothing is left |
| Sections.BuffersLoseNothing | src/zglab_rag/ingestion/chunking.py:59-94 | The line buffers cut at headings concatenate back to the document |
| Sections.BufferKeepsFences | src/zglab_rag/ingestion/chunking.py:59-94 | The fence is closed at every cut, scanning a buffer alone finds exactly the fences the document has there, and only its first line can be a section heading |
| Sections.PathsAreEnclosingHeadings | src/zglab_rag/ingestion/chunking.py:83-89 | The section paths are the enclosing headings throughout a document exactly when every heading leaves as many open headings as its level says |
| Sections.SiblingsNestAfterSkippedLevel | src/zglab_rag/ingestion/chunking.py:86-89 | The slice assignment files the second of two equal headings of level three or deeper, directly under a higher one, beneath the first: paths are not always the enclosing headings |
| Splitter.FencedSpans | src/zglab_rag/ingestion/chunking.py:109-129 | The spans found by the scan are the offsets of the fenced blocks, from the line of the opening marker through that of the first marker that closes it, or to the end of the text |
| Splitter.SpansAreBlocks | src/zglab_rag/ingestion/chunking.py:109-129 | The spans that the scan state yields are those of the blocks defined from the markers alone |
| Splitter.SpansAreOrdered | src/zglab_rag/ingestion/chunking.py:109-129 | Fence spans are non-empty, sorted and disjoint |
| Splitter.SpansAreMarked | src/zglab_rag/ingestion/chunking.py:109-129 | No fence span is white space only |
| Splitter.SpansCoverFencedLines | src/zglab_rag/ingestion/chunking.py:109-129 | A line lies in some span exactly when the fence state says it is fenced |
| Splitter.Boundary | src/zglab_rag/ingestion/chunking.py:97-106 | The cut follows the occurrence nearest the ideal length, the earlier one on a tie, of the first separator that occurs in the window, and is the hard limit exactly when none does; it makes progress and stays within the limit |
| Breaks.StrongestBreakWins | src/zglab_rag/ingestion/chunking.py:97-106 | The cut follows an empty line if one can be reached, else the end of a line, else of a sentence, else of a clause, else a space, the occurrence nearest to the ideal end and the earlier on a tie; it is the hard limit exactly when no break can be reached |
| Splitter.ProtectEnd | src/zglab_rag/ingestion/chunking.py:132-136 | An end inside a fence moves to the start of that fence if it is past the start of the piece, else to its end; any other end stays |
| Splitter.ProtectOverlapStart | src/zglab_rag/ingestion/chunking.py:139-151 | The overlapped start moves out of fences likewise, and is the end when the overlap would not progress |
| Splitter.NextEnd | src/zglab_rag/ingestion/chunking.py:161-171 | The end of a piece follows the end rule; the fallback for an end that is not past the start is never needed |
| Splitter.NextStart | src/zglab_rag/ingestion/chunking.py:179-183 | The next start follows the start rule, past white space; raising it to the next character is never needed |
| Splitter.SplitOversized | src/zglab_rag/ingestion/chunking.py:154-185 | The loop ends, its ranges form a run of the end and start rules, and the pieces are the stripped non-empty ranges; a text that fits is returned whole |
| Splitter.WholeRun | src/zglab_rag/ingestion/chunking.py:154-185 | In every run starts strictly increase, each next start is at most the previous end, the first is 0 and the last end is the end of the text; every cut is free of fences, and a range above the maximum size is one whole fenced block up to leading white space |
| Splitter.PieceHolds | src/zglab_rag/ingestion/chunking.py:173-175 | Every character that is not white space is inside the piece of the last range that starts at or before it |
| Splitter.PiecesCoverText | src/zglab_rag/ingestion/chunking.py:154-185 | Of any two characters that are not white space each is inside a piece, the earlier one in an earlier piece or earlier in the same |
| Splitter.FencesStayWhole | src/zglab_rag/ingestion/chunking.py:132-151 | Every fenced block lies whole in one range, up to leading white space |
| Splitter.CutsRespectFences | src/zglab_rag/ingestion/chunking.py:132-185 | No range ends strictly inside a fence, and none starts inside one past its leading white space |
| Breaks.RangesFollowBreaks | src/zglab_rag/ingestion/chunking.py:132-183 | In every run a range ends at the strongest break, moved out of a fenced block, and the next one starts at the first visible character from the overlap on: as far before that end as configured, likewise out of a block, or at the end itself |
| SectionFences.StripKeepsFencesIff | src/zglab_rag/ingestion/chunking.py:67-70 | Scanning a stripped text finds the fences of the text exactly when its first visible line is not made a fence by losing its indentation |
| SectionFences.SectionKeepsFencesIff | src/zglab_rag/ingestion/chunking.py:59-129 | Scanning the text of a section finds the fences the document has there exactly when the first visible line of the section is not made a fence by losing its indentation |
| SectionFences.FencedLineStaysInOneRange | src/zglab_rag/ingestion/chunking.py:59-185 | In every document the parser hands over each fenced line lies in a fenced block of its section's text, and the splitter leaves that block whole in one range, up to leading white space |
| SectionFences.SectionKeepsFirstLine | src/zglab_rag/ingestion/chunking.py:67-91 | Losing its indentation can make a line a fence only in front of the first heading, and only in a text that starts with white space |
| SectionFences.DocumentKeepsFences | src/zglab_rag/ingestion/markdown.py:137-157 | The body of a document is stripped before it is cut, so scanning the text of any section of a document finds the fences the document has there |
| SectionFences.UnstrippedTextGainsAFence | src/zglab_rag/ingestion/chunking.py:59-94 | `_parse_sections` alone does not keep the fences of a text that was not stripped: an input whose second line becomes fenced |
| DocumentText.BufferOf | src/zglab_rag/ingestion/chunking.py:59-94 | Every character of a document lies in a line buffer |
| DocumentText.VisibleCharacterIsKeptIff | src/zglab_rag/ingestion/chunking.py:59-185 | In every document a character that is not white space is in the text of its section, and at a named place of one of its pieces exactly when that text holds a newline or does not match the heading pattern |
| DocumentText.BodyIsDropped | src/zglab_rag/ingestion/chunking.py:67-70 | A heading line ended by another line break than a newline is dropped together with any one-line body |
| VectorSearch.SearchCandidates | src/zglab_rag/retrieval/vector.py:97-138 | The widening loop ends; its rows are the filtered and sorted answer of the widened prefix, and their first distances are those of filtering and sorting the nearest `maximum` rows |
| SearchLaws.WidensByTheFactor | src/zglab_rag/retrieval/vector.py:106-134 | The candidate count is the first one that is sufficient, or the maximum, among the larger of the requested number times the factor and the configured minimum, multiplied by the factor again and again |
| SearchLaws.AnswerHolds | src/zglab_rag/retrieval/vector.py:115-127 | The answer holds exactly the allowed rows among the nearest candidates, each as often |
| SearchLaws.AnswerIsOrdered | src/zglab_rag/retrieval/vector.py:128-128 | Nearer rows come first, and rows at one distance in the order of their chunk ids |
| VectorSearch.WideningKeepsDistances | src/zglab_rag/retrieval/vector.py:97-138 | The distances from a shorter prefix are a prefix of those from the full one: widening never misses a nearer row |
| VectorSearch.WideningKeepsRowsUnlessTied | src/zglab_rag/retrieval/vector.py:97-138 | The rows returned are those of the exhaustive search exactly when every allowed row beyond the prefix comes, by distance and then id, after enough allowed rows of the prefix |
| VectorSearch.DistinctDistancesNeverTie | src/zglab_rag/retrieval/vector.py:97-138 | With distinct distances the rows are identical |
| VectorSearch.TieAtTheLimitChangesTheRow | src/zglab_rag/retrieval/vector.py:106-138 | With a hidden row in front of two visible ones at one distance, a search for one row stops at two candidates and returns the row that the exhaustive search does not |
| Turns.PairUp | src/zglab_rag/conversation/context.py:31-43 | The greedy pairing loop finds exactly the adjacent USER/ASSISTANT pairs |
| Turns.TurnsSplit | src/zglab_rag/conversation/context.py:31-43 | Cutting a conversation where no turn straddles the cut splits its complete turns |
| Context.TruncateTextToBudget | src/zglab_rag/conversation/context.py:19-28 | The result is the longest prefix within both budgets, flagged exactly when something is cut; negative budgets are the only error |
| Context.FitNewestPair | src/zglab_rag/conversation/context.py:204-244 | The pair is shrunk from the longer end until it fits or one character of each is left, starting from the contents or an ellipsis; flagged exactly when something changed or it does not fit |
| Context.ShrinkFits | src/zglab_rag/conversation/context.py:204-244 | The shrunk pair fits exactly when one character of each message fits |
| Context.RelevantTier | src/zglab_rag/conversation/context.py:318-336 | The relevant tier is the longest prefix of the older-first eligible turns that fits, and is flagged exactly when a turn is dropped or cut |
| Context.RecentTier | src/zglab_rag/conversation/context.py:346-361 | The recent tier keeps as many turns before the newest as fit one by one, and is flagged exactly when one is dropped or cut |
| Context.SummaryTier | src/zglab_rag/conversation/context.py:300-316 | The summary is cut to the smaller of its own limit and what the reservation leaves, and dropped when nothing is left |
| Context.Assemble | src/zglab_rag/conversation/context.py:247-379 | Non-positive limits are the only error; the reported counts equal the characters and UTF-8 bytes of the rendered text; without a complete turn the context is empty; otherwise it is assembled from the three tiers, which `ContextMaxima` shows to hold as much as the budgets allow |
| ContextLaws.WithinBudgetIffNewestCanFit | src/zglab_rag/conversation/context.py:118-139 | The rendered context stays within both budgets exactly when the newest turn can fit at all |
| ContextLaws.ConfiguredMinimaSuffice | src/zglab_rag/config.py:122-124 | The configured minima let every newest turn fit |
| ContextLaws.RecentIsSuffix | src/zglab_rag/conversation/context.py:346-378 | The recent messages are a contiguous suffix of the complete turns that always ends in the newest one, with both roles |
| ContextMaxima.CandidatesAreLast | src/zglab_rag/conversation/context.py:271-271 | The recent candidates are the last of the complete turns, all of them or as many as the limit |
| ContextMaxima.RecentIsMaximal | src/zglab_rag/conversation/context.py:346-361 | When fewer recent turns are kept than there are complete turns and than the limit allows, the rendered context with one more complete turn in front of them exceeds a budget |
| ContextMaxima.RelevantIsMaximal | src/zglab_rag/conversation/context.py:318-336 | When a relevant turn offered is left out, the relevant component with it exceeds its own limit, or the rendered summary, relevant turns and newest turn exceed a budget |
| ContextMaxima.SummaryIsMaximal | src/zglab_rag/conversation/context.py:300-316 | When the summary is cut, one more character of it exceeds its own limit, or the rendered summary with the newest turn exceeds a budget |
| ContextMaxima.ShrinkIsMaximal | src/zglab_rag/conversation/context.py:217-244 | When the newest turn is shortened, the pair before the last character went did not fit |
| ContextLaws.UnflaggedLosesNothing | src/zglab_rag/conversation/context.py:265-378 | With a complete turn, an unflagged context holds every complete turn, every relevant turn offered and the whole summary |
| ContextLaws.NothingLostIsUnflagged | src/zglab_rag/conversation/context.py:265-378 | Conversely, a context that lost nothing is not flagged |
| ContextMaxima.UnflaggedIffWholeFits | src/zglab_rag/conversation/context.py:247-379 | With a complete turn, the flag stays down exactly when everything given fits: no more complete turns than the limit, every message within its limits and none of the newest turn empty, the summary and the relevant component within theirs, and all of it rendered together within both budgets |
| ContextLaws.EmptyContextLosesWhatItIsGiven | src/zglab_rag/conversation/context.py:270-275 | Without a complete turn the unflagged context has lost nothing exactly when there was no summary and no relevant turn |
| ContextLaws.SummaryDroppedUnflagged | src/zglab_rag/conversation/context.py:274-275 | While no question has been answered any summary is dropped and the flag stays down |
| ContextLaws.RetrievalQueryKeepsQuestion | src/zglab_rag/conversation/context.py:141-165 | The retrieval query ends in the whole question and exceeds a budget exactly when the question alone does |
| ContextTexts.QueryHoldsContext | src/zglab_rag/conversation/context.py:141-165 | Before the question the query holds as much of the rendered context as fits, and it is the question alone exactly when the frame around it does not fit |
| ContextTexts.OfferedAreOutside | src/zglab_rag/conversation/context.py:318-321 | The relevant turns offered are those with no message among the last complete turns up to the limit, each as often as given, in the order of their questions' ids |
| ContextTexts.OfferedKeepTheirOrder | src/zglab_rag/conversation/context.py:318-318 | Relevant turns whose questions have one id keep the order in which they were given |
| ContextTexts.CutTurnsInOrder | src/zglab_rag/conversation/context.py:185-195 | The lines of turns are each question and then its answer, cut to the longest beginning within the limits |
| ContextTexts.MessagesReadInTurn | src/zglab_rag/conversation/context.py:46-47 | Messages read one per line under their label, the first first |
| ContextTexts.ContextReads | src/zglab_rag/conversation/context.py:118-139 | The context reads as summary, relevant and recent turns under their headings, an empty line between them and nothing for a missing one |
| Utf8.BytesAreEncoded | src/zglab_rag/conversation/context.py:19-28 | The bytes counted are those of the UTF-8 encoding (section 3 of RFC 3629), from which the text can be read back |
| Summaries.SourcePrompt | src/zglab_rag/conversation/summary.py:62-83 | The prompt is the opening and the included turns in full, within both budgets |
| Summaries.IncludedIsLargest | src/zglab_rag/conversation/summary.py:76-83 | Exactly the leading turns that fit together with the opening are included |
| SummaryChoice.PromptQuotesTurn | src/zglab_rag/conversation/summary.py:76-83 | Each included turn's question and answer stand in the prompt whole and labelled, the answer after the question and each turn after the one before |
| SummaryChoice.PromptKeepsSummary | src/zglab_rag/conversation/summary.py:70-74 | With room for the opening the previous summary stands in it whole; a missing or empty one leaves no trace |
| SummaryChoice.RecentAreTheNewest | src/zglab_rag/conversation/repositories.py:157-173 | The recent messages are those with fewer than twice the configured turns created later, larger ids counting as later in a tie |
| SummaryChoice.WindowIsTheOldest | src/zglab_rag/conversation/repositories.py:175-192 | The window holds the oldest messages past the covered id, two for each turn of the batch and two more |
| SummaryChoice.ChosenAreTheFirst | src/zglab_rag/conversation/summary.py:140-168 | A refresh takes the complete turns of the window that do not end in a recent message: none below the trigger, otherwise the longest beginning that the batch size and the source budget allow |
| Summaries.Conversation.AppendMessage | src/zglab_rag/conversation/repositories.py:106-144 | A message of the owner is appended with a larger id; for any other user nothing is appended |
| Summaries.Conversation.Upsert | src/zglab_rag/conversation/repositories.py:223-315 | A summary is stored exactly when the owner stores it, its text is not blank, its coverage is a positive id of an assistant message of the conversation and does not step back; a refused attempt changes nothing |
| Summaries.Conversation.Choose | src/zglab_rag/conversation/summary.py:128-168 | The turns chosen are the first eligible ones that fit, none below the trigger and none for a user who is not the owner |
| Summaries.Conversation.Refresh | src/zglab_rag/conversation/summary.py:125-204 | The owner's refresh without interruption is its two reads and its commit; when it reports no update nothing changed |
| SummaryLaws.PrefixContinuesCoverage | src/zglab_rag/conversation/repositories.py:175-192 | A prefix of the new turns continues the covered turns without a gap |
| SummaryLaws.ChoiceLeavesNoGapIff | src/zglab_rag/conversation/summary.py:140-168 | Whatever the first read took for recent, the turns chosen are a prefix of the new ones exactly when no turn that is not recent follows a recent one, or the batch size or the source budget ends before the first recent turn |
| SummaryRuns.EveryRunIsSound | src/zglab_rag/conversation/summary.py:125-204 | In every interleaving of messages and refreshes coverage names the assistant message of a complete turn, and the summarized turns are complete turns up to it, in order, none twice |
| SummaryRuns.CoverageNeverDecreases | src/zglab_rag/conversation/repositories.py:279-292 | Coverage never decreases along a run |
| SummaryRuns.GaplessIff | src/zglab_rag/conversation/summary.py:140-196 | In every interleaving of messages and refreshes, every complete turn up to the coverage is in exactly one stored refresh, in order, exactly when the rows that each stored refresh read met that guard |
| SummaryRuns.QuietRunsAreGapless | src/zglab_rag/conversation/summary.py:140-196 | So it is whenever no message arrives between the two reads of a refresh and creation times follow the ids |
| SummaryLimits.MessagesBetweenTheReadsLoseATurn | src/zglab_rag/conversation/summary.py:140-154 | Two turns arriving between the two reads make the coverage pass a complete turn that was not summarized |
| SummaryLimits.LateTimesLoseATurn | src/zglab_rag/conversation/repositories.py:115-192 | A run without a message between the two reads that passes over a complete turn whose times are later than those of the turns after it |
| SummaryLimits.MissedTurnStaysMissed | src/zglab_rag/conversation/summary.py:146-154 | A turn left behind by the coverage is never summarized later |
| SummaryLimits.AdvancesIff | src/zglab_rag/conversation/summary.py:146-176 | Once the window of new messages is full and holds no recent one, a refresh reaches the provider exactly when the window holds enough turns and the first fits the source budget |
| SummaryLimits.StuckForever | src/zglab_rag/conversation/summary.py:146-176 | Otherwise no later run of messages and refreshes ever stores a summary again, although the window is documented to advance gradually |
| SummaryLimits.StuckIsReached | src/zglab_rag/conversation/summary.py:146-176 | Under every configuration such a state is reached from an empty conversation by unanswered questions alone |
| SummaryLimits.UnansweredQuestionsStopTheSummary | src/zglab_rag/conversation/summary.py:146-162 | A window of unanswered questions stops the summary for good |
| SummaryLimits.HighTriggerNeverFires | src/zglab_rag/conversation/summary.py:28-35 | A trigger above the batch size plus one, which the settings accept, disables the summary |
| SummaryLimits.SummaryIsStoredIff | src/zglab_rag/config.py:137-141 | Under the least values the settings accept, some run stores a summary exactly when the trigger is at most the batch size plus one |
| ResourceCache.Evict | src/zglab_rag/conversation/repositories.py:447-463 | The loop that deletes the least recently used row ends and leaves exactly the rows outside the shortest prefix by age that makes the rest fit |
| ResourceCache.SessionResources.GetValid | src/zglab_rag/conversation/repositories.py:341-381 | The result is the live row of an equal producer owned by the caller; an expired row is deleted, a hit is touched, anything else changes nothing |
| ResourceCache.SessionResources.PutBounded | src/zglab_rag/conversation/repositories.py:383-467 | A put is accepted exactly when it passes the checks; expired rows go, the row is written keeping id and creation time, the rest is evicted; a rejected put changes nothing |
| CacheLaws.EvictCountIsLeast | src/zglab_rag/conversation/repositories.py:447-463 | The number evicted is the least whose removal makes the rest fit |
| CacheLaws.PutBoundsTheConversation | src/zglab_rag/conversation/repositories.py:447-463 | After an accepted put the conversation keeps its item and byte bounds |
| CacheLaws.PutLeavesNothingExpired | src/zglab_rag/conversation/repositories.py:423-426 | After an accepted put no row of the conversation is expired at its time |
| CacheLaws.PutLeavesOthersAlone | src/zglab_rag/conversation/repositories.py:417-463 | A put alters no row of any other conversation |
| CacheLaws.NewRowSurvivesIff | src/zglab_rag/conversation/repositories.py:427-463 | The row just put survives exactly when the rows that are not older fit together with it |
| CacheRecency.StaysIff | src/zglab_rag/conversation/repositories.py:427-463 | Any row of the conversation survives a put exactly when it fits the bounds together with all rows that were not used before it, creation times and then ids deciding ties |
| CacheRecency.UsedIsTheLastUse | src/zglab_rag/conversation/repositories.py:353-445 | In every run a row's time of use is that of the last accepted put or hit of its slot |
| CacheRecency.CreatedIsTheInsertion | src/zglab_rag/conversation/repositories.py:427-445 | In every run a row's creation time is that of the put that inserted it; putting a live key again keeps it |
| CacheRecency.SizesCountBytes | src/zglab_rag/conversation/repositories.py:408-444 | In every run a row's size is the bytes of its payload and of its provenance together |
| CacheRecency.ReadRemovesIff | src/zglab_rag/conversation/repositories.py:353-378 | A read removes a row exactly when it is the owner's read of its slot and the row has expired |
| CacheLaws.FreshKeySurvives | src/zglab_rag/conversation/repositories.py:427-463 | It survives when its key is fresh and no row is from the future |
| CacheLaws.LatestTimeSurvives | src/zglab_rag/conversation/repositories.py:427-463 | It survives when its time is strictly the newest of the conversation |
| CacheLaws.OverwriteAtOneInstantIsLost | src/zglab_rag/conversation/repositories.py:427-463 | Three puts and a read from the empty cache, under one limit and a clock that does not go back: the last put, which overwrites a key, is accepted and cannot be read |
| CacheLaws.RunAgrees | src/zglab_rag/conversation/repositories.py:341-467 | In every run each row holds what the last accepted put of its slot stored |
| CacheLaws.HitIsTheLastPut | src/zglab_rag/conversation/repositories.py:353-378 | In every run a hit returns the body of the most recent accepted put of that owner and slot, with an equal fingerprint and before its expiry |
| CacheLaws.FreshPutIsReadable | src/zglab_rag/conversation/repositories.py:383-467 | In every run whose clock has not passed it, a put of a key that is not live can be read at once |
| AskLifecycle.ConcurrencyGuard.Acquire | src/zglab_rag/api/concurrency.py:34-42 | A slot is taken exactly when one is free |
| AskLifecycle.ConcurrencyGuard.Release | src/zglab_rag/api/concurrency.py:44-46 | A slot is given back |
| AskLifecycle.ReleaseAll | src/zglab_rag/api/main.py:1481-1482 | Every held slot is given back once |
| AskLifecycle.AskEndpoint.Ask | src/zglab_rag/api/main.py:1547-1641 | Run alone, a request is submitted exactly when its slots are free, the quota allows it, its conversation is found and the executor accepts; it stays charged exactly when it is submitted, cut short after the charge, or its refund fails; its callbacks are then one for each slot it keeps, and a slot is lost exactly when a store raises |
| AskLifecycle.HeldAfter | src/zglab_rag/api/main.py:1547-1627 | What a request will still release changes by exactly the slot a step takes or returns |
| AskAlone.AloneIsAsk | src/zglab_rag/api/main.py:1547-1641 | The steps of the interleaving model taken by one request alone end as the endpoint does: same outcome and charge, the free slots lowered by exactly those it keeps, and one callback for each |
| AskLaws.EveryRunConserves | src/zglab_rag/api/main.py:1547-1641 | In every interleaving, free and held slots of each guard add up to its capacity, and the free ones are never negative |
| AskLaws.EachSlotIsReleasedOnce | src/zglab_rag/api/main.py:2178-2193 | Nothing is released while the generation runs, whatever became of its client; no slot is released twice; a settled request that did not crash has released exactly what it took |
| AskLaws.AllSlotsReturnIff | src/zglab_rag/api/main.py:1547-1641 | When every request has settled, all slots are free exactly when at no step of the run the quota or message store raised |
| AskLaws.RaiseLosesSlots | src/zglab_rag/api/main.py:1589-1611 | One exception of the quota store settles its request with every slot it took lost |
| AskLaws.ChargedIffSubmitted | src/zglab_rag/api/main.py:1463-1490 | A settled request is charged exactly when its generation was submitted, unless it crashed or its refund failed |
| AskLaws.RunningTasksAreBounded | src/zglab_rag/api/concurrency.py:1-10 | At no time do more tasks run under a guard than it has slots |
| AskLaws.EveryRunEnds | src/zglab_rag/api/main.py:1547-1641 | No run makes more than fifteen steps a request |
| AskLaws.UnsettledCanMove | src/zglab_rag/api/main.py:1547-1641 | A request that has not settled always has a possible step: nothing waits for a slot |
| Identity.AuthDatabase.ProvisionUser | src/zglab_rag/auth/identity.py:96-124 | A new user is PENDING with one live activation token; a duplicate changes nothing |
| Identity.AuthDatabase.IssueToken | src/zglab_rag/auth/identity.py:335-363 | Live tokens of the user and purpose are superseded by the new one |
| Identity.AuthDatabase.ConsumeToken | src/zglab_rag/auth/identity.py:144-151 | A token is consumed exactly when it was not consumed before |
| Identity.AuthDatabase.ActivateAccount | src/zglab_rag/auth/identity.py:153-190 | The transaction activates a PENDING or DISABLED user with the new password, or leaves everything as it was, the token unconsumed |
| Identity.AuthDatabase.ResetPasswordWithToken | src/zglab_rag/auth/identity.py:192-233 | The transaction renews an ACTIVE user's password and revokes every session, or leaves everything as it was |
| Identity.AuthDatabase.FindForReset | src/zglab_rag/auth/identity.py:254-263 | The user is read before the transaction; a PENDING user is to get an activation token, any other a reset token |
| Identity.AuthDatabase.ResetTransaction | src/zglab_rag/auth/identity.py:264-275 | Sessions are revoked, the credential is marked for a reset token, and the token of that purpose is issued; an error rolls all back |
| Identity.AuthDatabase.AdminResetPassword | src/zglab_rag/auth/identity.py:237-282 | A reset that nothing interrupts is that read and that transaction |
| Identity.AuthDatabase.FindToManage | src/zglab_rag/auth/identity.py:291-300 | Any user can be disabled, only a DISABLED one enabled, as it is read |
| Identity.AuthDatabase.SetEnabled | src/zglab_rag/auth/identity.py:284-317 | A change that nothing interrupts sets the status, and disabling then revokes every session |
| Identity.AuthDatabase.CheckLogin | src/zglab_rag/auth/session.py:106-156 | A login passes its checks exactly with the stored password of an ACTIVE user with a VALID credential |
| Identity.AuthDatabase.CreateSession | src/zglab_rag/auth/session.py:158-173 | A session is inserted for the user whose login passed, whatever became of the user since |
| Identity.AuthDatabase.Login | src/zglab_rag/auth/session.py:92-187 | A login that nothing interrupts is its checks and the insertion |
| Identity.AuthDatabase.ResolveSession | src/zglab_rag/auth/session.py:204-227 | Only an unrevoked, unexpired session of an ACTIVE user resolves, and its idle limit moves; `IdentityHistory.SecretResolvesIff` says when that is |
| Identity.AuthDatabase.CheckChange | src/zglab_rag/auth/session.py:269-280 | A change of password passes its checks exactly with the stored password and an allowed new one |
| Identity.AuthDatabase.RenewPassword | src/zglab_rag/auth/session.py:281-288 | The transaction sets the password and revokes every session of the user but the one given, whatever became of the user since the check |
| Identity.AuthDatabase.ChangePassword | src/zglab_rag/auth/session.py:253-295 | A change that nothing interrupts is the resolution of the session, these checks and that transaction |
| IdentityAlone.LoginIsARun | src/zglab_rag/auth/session.py:92-187 | A login that nothing interrupts leaves the tables as its two steps in a run do |
| IdentityAlone.ResetIsARun | src/zglab_rag/auth/identity.py:237-282 | So does a reset with its read and its transaction, |
| IdentityAlone.EnablingIsARun | src/zglab_rag/auth/identity.py:284-317 | enabling with the read and the status, |
| IdentityAlone.DisablingIsARun | src/zglab_rag/auth/identity.py:284-317 | disabling with the read, the status and the revocation, |
| IdentityAlone.ChangeIsARun | src/zglab_rag/auth/session.py:253-295 | and a change of password with the resolution, the check and the transaction |
| IdentityLaws.EveryRunIsSafeIff | src/zglab_rag/auth/session.py:106-173 | With every read and every later write of logins, resets and status changes as separate steps, each unrevoked session belongs to an ACTIVE user with a VALID credential, or to one whose sessions a client is still to revoke, at every moment of a run, exactly when this held of the user of every session when it was opened |
| IdentityLaws.LateSessionWasNeverSafe | src/zglab_rag/auth/session.py:158-173 | In every run an unrevoked session without that right was opened without it, and its user has not had it at any moment since |
| IdentityLaws.EveryRunIsSound | src/zglab_rag/auth/identity.py:128-151 | With lookup and consumption as separate steps of many clients, each token is committed at most once, consumed exactly when committed, for its own purpose, and at most one per user and purpose is live |
| IdentityLaws.IssuedStaysSingle | src/zglab_rag/auth/repositories.py:264-275 | Issuing a token keeps at most one live per user and purpose |
| IdentityLaws.ResolvedUserMayLogIn | src/zglab_rag/auth/session.py:204-227 | In every run whose sessions were opened in time, a session that resolves belongs to a user who may have sessions, or is about to be revoked |
| IdentityLaws.RevokedSessionIsOver | src/zglab_rag/auth/session.py:229-240 | Once revoked, a session is valid in no continuation of any run |
| IdentitySessions.LimitsAreCounted | src/zglab_rag/auth/session.py:158-227 | In every run the idle limit of a session is counted from the last time it was opened or resolved and the absolute limit from its opening, which nothing moves |
| IdentitySessions.ResolvesIff | src/zglab_rag/auth/session.py:204-240 | In every run a secret resolves exactly when it is acceptable and of an unrevoked session of an ACTIVE user touched less than the idle limit and opened less than the absolute limit before |
| IdentityHistory.SecretResolvesIff | src/zglab_rag/auth/session.py:189-240 | The same with revocation and status read off the operations: no logout, revocation, disabling, reset, password set with a token or change from another session has ended it |
| IdentityHistory.RevokedIffEnded | src/zglab_rag/auth/repositories.py:192-214 | In every run a session is revoked exactly when one of these operations has ended it |
| IdentityHistory.EveryRowIsFound | src/zglab_rag/auth/repositories.py:109-255 | In every run a user name, a session secret and a token secret belong to one row each |
| IdentityHistory.UsersAreAsRecorded | src/zglab_rag/auth/identity.py:96-317 | In every run a user has the password last set by a token or a change, the status last given by an activation, an enabling or a disabling, and a credential marked by the last reset unless a token was consumed since |
| IdentityHistory.LoginIff | src/zglab_rag/auth/session.py:106-156 | In every run a login passes its checks exactly with the password last set for an ACTIVE user of that name whose credential is VALID |
| IdentityHistory.ChangeIff | src/zglab_rag/auth/session.py:269-280 | In every run a change of password passes its check exactly with the password last set and a new one of allowed length |
| IdentityHistory.ManageIff | src/zglab_rag/auth/identity.py:291-300 | In every run a user of a name can be disabled, and enabled exactly when last disabled |
| IdentityHistory.ResetIsFor | src/zglab_rag/auth/identity.py:254-263 | In every run a reset is for an activation exactly when the account was never activated, enabled or disabled |
| IdentityHistory.LookupIff | src/zglab_rag/auth/identity.py:128-143 | In every run a token is found exactly by its acceptable secret, for its purpose and an allowed password, when it was neither consumed nor superseded and is younger than its time to live |
| IdentityLaws.LogoutEndsTheSession | src/zglab_rag/auth/session.py:189-200 | After a logout the session's secret never resolves again |
| IdentityLaws.PasswordChangeEndsOtherSessions | src/zglab_rag/auth/session.py:253-295 | In every state, whatever happened since its check, a password change sets the new password and leaves the session it came from as valid as it was, and no other session of the user ever resolves again |
| IdentityResets.NoLoginUntilTokenConsumed | src/zglab_rag/auth/identity.py:244-250 | From a marked credential, until a token of the user is consumed the mark stays, and the sessions the user gets are those of logins that had passed their checks |
| IdentityResets.NoLoginAfterAdminReset | src/zglab_rag/auth/identity.py:237-282 | After an admin reset of a user who is not PENDING and has no login under way, in any continuation of any run, until a token of the user is consumed every session of the user is revoked and no login passes |
| IdentityResets.SessionAfterResetIff | src/zglab_rag/auth/identity.py:243-250 | After such a reset some continuation gives the user a working session without consuming a token exactly when a login of the user was between its checks and its session |
| IdentityTokens.CommitsIff | src/zglab_rag/auth/identity.py:144-183 | In every run consuming a token that was looked up commits exactly when it was not consumed before and the status of its user fits |
| IdentityTokens.RevokedIffIssuedSince | src/zglab_rag/auth/identity.py:335-351 | In every run a token that was looked up and not consumed has been superseded exactly when one was issued to its user for its purpose since |
| IdentityTokens.ConsumedTokenIsCurrentIff | src/zglab_rag/auth/identity.py:128-151 | In every run a token that is consumed is still unrevoked exactly when none was issued to its user for its purpose since it was looked up, and still unexpired exactly when its time since it was issued has not run out |
| IdentityUnlock.OnlyNewTokensUnlock | src/zglab_rag/auth/identity.py:237-282 | After an admin reset of a user who is not PENDING, with no token of the user looked up and unconsumed and no usable activation token left, the token that unlocks the user is the one issued by the reset or a later one |
| IdentityUnlock.OldTokenIsConsumedIff | src/zglab_rag/auth/identity.py:128-183 | After such a reset a token issued before it can still be consumed exactly when one was looked up and is unconsumed, or a usable activation token is left |
| IdentityPasswords.PasswordAfterTokenIff | src/zglab_rag/auth/session.py:268-288 | In every run, after a token of a user was consumed, some continuation in which nobody gives the new password and no token of the user is consumed replaces that password exactly when a change to another one had passed its check before |
| IdentityRuns.PendingLoginIsReached | src/zglab_rag/auth/session.py:106-173 | A run from the empty tables to a reset with a login between its checks and its session, whose session is then opened too late |
| IdentityRuns.ClaimIsOutstanding | src/zglab_rag/auth/identity.py:128-151 | A run to a reset with a token that was looked up and is unconsumed |
| IdentityRuns.ActivationTokenIsLeft | src/zglab_rag/auth/identity.py:237-282 | A run to a reset with a usable activation token that nobody looked up |
| IdentityRuns.StaleChangeReplaces | src/zglab_rag/auth/session.py:268-288 | A run through a reset and the consumption of its token after which the account has the password of a change checked before the reset |
| SlidingWindow.AcceptStaysSpaced | src/zglab_rag/api/rate_limit.py:52-63 | Accepting below the limit keeps any limit-plus-one consecutive times at least a window apart |
| SlidingWindow.WindowHoldsAtMost | src/zglab_rag/api/rate_limit.py:41-63 | Such times put at most the limit into any window |
| RateLimiting.RateLimiter.Check | src/zglab_rag/api/rate_limit.py:41-63 | The client's list is pruned, the call is accepted below the limit and recorded, else rejected with the hint; with no request allowed the hint itself fails |
| RateLimiting.RateLimiter.Remaining | src/zglab_rag/api/rate_limit.py:73-83 | The remainder is positive exactly when a check now would accept |
| RateLimiting.StoredIsPrunedHistory | src/zglab_rag/api/rate_limit.py:52-55 | For any later window the pruned list and the full accepted history have the same active times |
| RateLimiting.DecidedByHistory | src/zglab_rag/api/rate_limit.py:41-63 | Every call is decided as if nothing had been pruned |
| RateLimiting.AcceptedIff | src/zglab_rag/api/rate_limit.py:41-63 | A call is accepted exactly when fewer than the limit of its client's calls were accepted less than a window ago |
| RateLimiting.AcceptancesAreSpaced | src/zglab_rag/api/rate_limit.py:41-63 | In every history any limit-plus-one consecutive acceptances of a client span at least the window |
| RateLimiting.WindowsHoldAtMostMax | src/zglab_rag/api/rate_limit.py:41-63 | In every history no window holds more acceptances of a client than the limit |
| RateLimiting.RetryIff | src/zglab_rag/api/rate_limit.py:57-61 | After a rejection with no acceptance since, a retry is accepted exactly from the hinted time on |
| RateLimiting.CrashesIff | src/zglab_rag/api/rate_limit.py:57-59 | After every history a call fails on the minimum of an empty list exactly when the limit is not positive |
| LoginThrottling.LoginThrottle.CheckAndRecord | src/zglab_rag/auth/throttle.py:39-62 | The user name is judged first, both must have room, an attempt is recorded for both or for neither |
| LoginThrottling.StoredIsPrunedHistory | src/zglab_rag/auth/throttle.py:64-69 | Pruning changes no later decision of a key |
| LoginThrottling.AcceptedIff | src/zglab_rag/auth/throttle.py:39-62 | An attempt is accepted exactly when its address and its user name each had fewer acceptances within their windows than their limits |
| LoginThrottling.AcceptancesAreSpaced | src/zglab_rag/auth/throttle.py:39-62 | In every history each address and each user name keeps its own spacing |
| LoginThrottling.WindowsHoldAtMostLimit | src/zglab_rag/auth/throttle.py:39-62 | In every history no window of an address or a user name holds more acceptances than its limit |
| LoginThrottling.RetryIff | src/zglab_rag/auth/throttle.py:50-59 | After a rejection with no acceptance since, a retry is accepted exactly when the hinted time has come and the other dimension has room |
| LoginThrottling.CrashesIff | src/zglab_rag/auth/throttle.py:50-74 | After every history an attempt fails on the minimum of an empty list exactly when one of the two limits is not positive |
| Quota.UsageGuard.CheckAndRecord | src/zglab_rag/auth/quota.py:45-73 | A call is accepted exactly when both counts were below their limits; a rejected one leaves the table as it was and names the time to the next minute or day; either way the table is the next one of the run |
| Quota.HintsNameTheNext | src/zglab_rag/auth/quota.py:60-68 | Waiting for the hinted time or longer is exactly waiting for a later minute, or a later day, and for at least a tenth of a second |
| Quota.UsageGuard.Refund | src/zglab_rag/auth/repositories.py:319-328 | An existing bucket of the minute loses one request, never going below zero |
| Quota.DayTotalAfter | src/zglab_rag/auth/repositories.py:291-307 | Changing a bucket changes its own day total by the difference and no other |
| Quota.EveryRunKeepsLimits | src/zglab_rag/auth/quota.py:45-82 | In every run each bucket and each day sum stays non-negative and within its limit |
| Quota.RefundGivesBackIff | src/zglab_rag/auth/quota.py:75-82 | A refund gives a recorded request back exactly when it falls into the same minute |
| Fusion.RankList | src/zglab_rag/retrieval/intelligent.py:43-45 | The dictionary keeps the rank of the last occurrence of each id |
| Fusion.ReciprocalRankFusion | src/zglab_rag/retrieval/hybrid.py:33-84 | For a positive constant the result holds every listed id once with its score and best rank, in the order of the sort key, ranked from one |
| Fusion.IntelligentRrf | src/zglab_rag/retrieval/intelligent.py:29-81 | The same for three lists, whatever order the dictionary is read in |
| Fusion.FusionIsUnique | src/zglab_rag/retrieval/hybrid.py:83-84 | The fused list is determined by the lists and weights |
| FusionLaws.EntryOfListed | src/zglab_rag/retrieval/intelligent.py:54-62 | A list that holds an id adds its weight over the constant plus the rank of the last occurrence, and the best rank is the smaller one |
| FusionLaws.EntryOfUnlisted | src/zglab_rag/retrieval/intelligent.py:54-62 | A list without the id changes neither |
| FusionLaws.NoListNoScore | src/zglab_rag/retrieval/intelligent.py:54-62 | In no list an id has score and best rank zero |
| FusionLaws.ShareOfListed | src/zglab_rag/retrieval/intelligent.py:58-60 | A list's share times the constant plus the rank is its weight |
| FusionLaws.FusedIff | src/zglab_rag/retrieval/intelligent.py:43-55 | An id is in the fused list exactly when some list holds it |
| FusionLaws.FusedFalls | src/zglab_rag/retrieval/intelligent.py:77-77 | Entries fall in score; equal scores go by best rank and then by id in lexicographic order |
| Fusion.FusedIdsAreDistinct | src/zglab_rag/retrieval/hybrid.py:55-84 | No id appears twice |
| Fusion.DominantComesFirst | src/zglab_rag/retrieval/intelligent.py:54-77 | With non-negative weights an id that beats another in every list holding the other comes before it |
| Fusion.TwoListsAreThree | src/zglab_rag/retrieval/hybrid.py:43-84 | Fusing two lists gives the same ids, order and scores as fusing them with an empty third |
| Reranking.RerankingIsUndone | src/zglab_rag/reranking/service.py:104-128 | Reranking permutes the candidates by falling score, and sorting by original rank gives the candidates back in their order |
| RankingLaws.RetrievesTheTop | src/zglab_rag/reranking/service.py:25-128 | Retrieval fails exactly for a requested number outside the limits or scores that do not match the candidates; otherwise it returns the best candidates with their own scores and places, by falling score and equal scores in vector order, and every candidate left out comes after each of them |
| Reranking.ComputeMetrics | src/zglab_rag/evaluation/retrieval.py:80-122 | The means of recall, hit rate and reciprocal rank over all queries, a cutoff listed more than once counting as often, with mismatched, missing or unlabelled queries as the only errors |
| RankingLaws.RecallIsAShare | src/zglab_rag/evaluation/retrieval.py:96-104 | Recall times the number of targets is the number of targets of which an item within the cutoff has the source, the path and a section at or below |
| RankingLaws.HitIff | src/zglab_rag/evaluation/retrieval.py:104-104 | A hit is any such target |
| RankingLaws.RankOfFirst | src/zglab_rag/evaluation/retrieval.py:106-115 | The rank is the place of the first item that answers a target, counted from one |
| RankingLaws.ReciprocalInverts | src/zglab_rag/evaluation/retrieval.py:114-115 | The reciprocal times the rank is one; without a rank it is zero |
| RankingLaws.MetricsOfOne | src/zglab_rag/evaluation/retrieval.py:117-122 | The metrics of one query are its own |
| RankingLaws.RecallOfMore | src/zglab_rag/evaluation/retrieval.py:93-122 | One more query moves mean recall as a mean moves |
| RankingLaws.HitOfMore | src/zglab_rag/evaluation/retrieval.py:93-122 | ... and the hit rate |
| RankingLaws.ReciprocalOfMore | src/zglab_rag/evaluation/retrieval.py:106-122 | ... and the mean reciprocal rank |
| Reranking.FirstRankIsFirst | src/zglab_rag/evaluation/retrieval.py:106-115 | The reciprocal rank uses the first item that matches a target |
| Reranking.RecallGrowsWithCutoff | src/zglab_rag/evaluation/retrieval.py:96-104 | Recall of a query does not fall as the cutoff grows |
| Reranking.RecallAtMostHit | src/zglab_rag/evaluation/retrieval.py:96-104 | Recall of a query never exceeds its hit rate |
| Reranking.MetricsAreOrdered | src/zglab_rag/evaluation/retrieval.py:117-122 | The same for the means, when no cutoff is listed twice |
| Reranking.CoveringRecallIgnoresOrder | src/zglab_rag/evaluation/retrieval.py:96-104 | Recall at a cutoff covering the whole list does not depend on its order |
| Reranking.RerankingKeepsRecall | src/zglab_rag/evaluation/reranker_compare.py:205-216 | The two rankings compared have equal recall at any covering cutoff, and the recovered one is the vector order |
| Reranking.EvaluateCandidateK | src/zglab_rag/evaluation/reranker_compare.py:185-235 | The two sets of metrics are those of the candidates as found and as reranked; the evaluation fails exactly without queries, for an unlabelled query, for scores that do not match or when fewer results than candidates may be asked for; the run-time check on recall at the candidate count never fires |

## Left out

- SQL text, migrations, connections and the JSON encoding of payloads: tables are sequences or maps of rows.
- The vector index, the embedding and reranker models: the store's answer is a prefix of one nearest-first ranking, scores are parameters.
- The clean-up of a heading's title and the Unicode normalisation of names: the one is a parameter, user names and questions arrive normalized.
- `GraphRetriever.retrieve` after the traversal: reading the chunks of the provenance and filling up with lexical results.
- Context.Assemble: the relevant and summary texts are inputs; how relevant turns are found is not modelled.
- The ends of consecutive pieces of the splitter are not claimed to increase; the starts are.
- Summaries.Conversation.Refresh: one conversation and its owner; deleting a conversation during a refresh, and more than the one worker the coordinator allows, are not modelled.
- ResourceCache.SessionResources.GetValid: creating and deleting conversations; the owners are fixed.
- The version check of a cached payload by the caller of the cache.
- The version 1 ask endpoints, which use the main guard alone; the preflight of an ask request, the shape of its answer, progress events and the saving of the answer.
- Audit records, timing equalisation, roles and CSRF tokens of the identity operations; the statements that resolve one session are one step.
- The pruning of expired sessions and of old usage rows.
- Fusion.ReciprocalRankFusion: the other fields of a result, such as its text and the BM25 score.
- Reranking.ComputeMetrics: cutoffs are not negative, as every caller passes them.
- Floating-point rounding, and clocks that go back elsewhere than in the creation times of messages.
- The agent planner, the citation checks, error mapping, configuration validation and the index planner: short case analysis.
