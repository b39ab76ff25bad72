# Verified models of the backend's rule-driven core

This project models four parts of the backend and proves what they guarantee.

* **Chunking engine** (`backend/app/chunking`): the multilingual lexer and its token cost,
  the sentence splitter, the heading stack, the greedy packers for table rows, list lines,
  sentences and token windows, the paragraph recursion, the small-fragment merger, the
  deduplicator, the parent/child hierarchy and the validator at the end of the pipeline.
* **Refresh-token rotation** (`backend/app/auth`): the token store with families, rotation,
  reuse detection and mass revocation, as a state machine over whole runs of the service.
* **Agent runtime** (`backend/app/agents`): the session status machine, the plan validator,
  the step loop with its approval gate, checkpoints and replay, the loop detector and the
  budgets, over whole histories of service calls.
* **Audit hash chain** (`backend/app/compliance/audit_integrity.py`): the chain fold, the
  ledger verifier, and what kind of tampering it finds and at which record.

`dafny verify dfyconfig.toml` checks everything.

## How the model is built

Code that works step by step is a method or a class with the same loops, fields and early
returns. Each such method is proved equal to a specification function of its inputs or of the
old state, and the laws are lemmas about those functions, so they hold of the methods. Where
such a function only computes, a second description that does not use it is proved equal to it:
the token patterns under a backtracking matcher (`PatternMatch`), sentence ends by characters
(`SentenceLaws`), a flat reading of the document (`ReadingOrder`), duplicates by words, context
and page (`Duplicates`), cutting rules with their limits written out (`SplitRules`), chunks field
by field (`ChunkFields`), and the answers of every service call by rows (`AuthAnswers`,
`AgentOutcomes`).

* Text is a sequence of characters that carry the class the token patterns look at (Arabic
  letter, mark or digit, other letter, digit, symbol, underscore, whitespace), taken to be in
  NFKC form already. Both token patterns are leftmost, first-alternative, greedy matching.
* Digests and name-based identifiers are represented by what they are computed from (a content
  hash by the normalised text, a chunk identifier by its four fields, a token digest by the
  secret, a tool-input hash by the serialised input). The audit chain keeps its hash and its
  serialiser as parameters that are assumed free of collisions (`CollisionFreeIsPossible` gives
  functions that meet the assumption).
* Clock values, random secrets and families, permissions and the answers of tools are
  parameters. New secrets and families are assumed unused, which is what the random source is
  for.
* The chunking limits are a parameter. `maxChars > 0` is assumed where a fragment is sliced by
  it. Results about the whole pipeline assume `Roomy`, three inequalities between the limits
  that the default settings satisfy (`DefaultIsRoomy`).

What holds only under a condition is stated with the condition, and the failing side is shown:

* An underscore matches no alternative of the token patterns, so re-joining fragments drops it
  and can fuse two words (`UnderscoreFusesWords`). `FusesNothing` is the condition on the text:
  no underscore stands between characters that would otherwise be one token. It can be read off
  the characters from left to right (`FusesNothingByCharacters`). `RejoinKeepsTokensExactly`
  shows that re-joining keeps the tokens if and only if it holds, and `TruncateExactly` that
  truncation meets its promise if and only if it holds of the text kept.
* Splitting re-joins fragments only in the windows of oversized sentences. `ConservedExactly`
  says for every text when its tokens survive: each oversized sentence has no token longer than
  the character limit and no window that fuses two (`WindowingKeepsExactly`).
  `ChunksCarryTheDocument` says the same of every document. `PiecesBounded` (character bound, no
  character lost) has no condition. `UnderscoresReject` is a paragraph of 364 cheap words that
  the pipeline itself rejects because a window fused them.
* The pipeline can trip its own validator. `DocumentAcceptedExactly` says of every document when:
  a heading, list line or table row that is never split does not fit, a window does not, or a
  truncated parent overruns its limit. `LongHeadingRejected`, `UnderscoresReject` and
  `ParentOverruns` are rejected documents of the three kinds. Where neither windows nor
  truncated parents fuse tokens, in particular where nothing fuses in the document's texts, its
  own words decide (`WordsDecideAcceptance`, `PlainDocumentAccepted`).
* A table of headers alone that does not fit in one chunk yields no chunk at all
  (`NoSlicesExactly`). Every other table is covered by its slices.
* A proportional token report keeps input plus output equal to the total if and only if the
  reported count is not negative (`BalancedExactly`). Reports never exceed the budget if and
  only if their rounded-up fifths fit the output share (`NeverRaisesExactly`), which can fail
  far below the total (`RoundingCanRaise`).
* Logging out with a token that was already rotated leaves its successor redeemable
  (`LogoutEndsLineage`, `RotatedLogoutLeavesSuccessor`).
* Greedy packing is shown optimal for tables without headers as well. There the column count
  is recomputed for each slice, and `RenderMonotone` covers that case.

## Model

| member | source | states |
|---|---|---|
| Lexer.MatchLen | backend/app/chunking/tokenizer.py:45-52 | a match of the token pattern is empty only at an underscore, never contains one, and never mixes whitespace with ink |
| Lexer.PatternsAgree | backend/app/chunking/tokenizer.py:45-61 | the counting pattern finds exactly the non-space fragments of the splitting pattern, in order |
| PatternMatch.MatchLenIsMatch | backend/app/chunking/tokenizer.py:45-61 | at every position the lexer's match is the one a backtracking matcher takes for the two token patterns, written out over character classes |
| PatternMatch.FragmentsAreFound | backend/app/chunking/tokenizer.py:88-93 | the fragments are what the matcher finds for the token pattern, left to right |
| PatternMatch.ContentIsFound | backend/app/chunking/tokenizer.py:63-75 | the counted tokens are what the matcher finds for the content pattern, left to right |
| Lexer.FragmentsConcat | backend/app/chunking/tokenizer.py:88-93 | joining the fragments gives the text with exactly its underscores removed |
| Underscores.RejoinKeepsTokensExactly | backend/app/chunking/tokenizer.py:45-93 | joining a text's fragments keeps its tokens if and only if no underscore in it holds apart characters that would be one token |
| UnderscoreScan.FusesNothingByCharacters | backend/app/chunking/tokenizer.py:45-52 | underscores fuse nothing if and only if reading the characters from left to right, with what the current token may go on with, never finds an underscore between a character and one that would go on with its token |
| Underscores.RunsRelexExactly | backend/app/chunking/tokenizer.py:88-93 | every contiguous run of a text's fragments lexes to itself again if and only if no underscore in it holds apart characters of one fragment, whitespace included |
| Lexer.ContentAppend | backend/app/chunking/tokenizer.py:55-61 | a text is lexed piecewise wherever the right part starts with whitespace |
| Lexer.ContentAround | backend/app/chunking/tokenizer.py:63-86 | tokens and cost are additive across any non-empty whitespace separator |
| Lexer.UnderscoreFusesWords | backend/app/chunking/tokenizer.py:47-50 | two eight-letter words around an underscore cost 2, their re-joined fragments cost 3 |
| Tokenizer.CountTokens | backend/app/chunking/tokenizer.py:63-86 | the counting loop returns the summed cost of the content tokens, 0 for blank text |
| Tokenizer.TruncateToTokens | backend/app/chunking/tokenizer.py:95-117 | the accumulation loop returns the right-stripped text of the leading fragments that fit the budget |
| Tokenizer.FitCountExact | backend/app/chunking/tokenizer.py:104-115 | the loop stops at the last fragment count within the budget: no larger count fits |
| Tokenizer.TruncateExactly | backend/app/chunking/tokenizer.py:95-117 | the result is within the budget and carries the longest prefix of the text's tokens that fits it, if and only if joining the kept fragments fuses nothing |
| Tokenizer.TruncateIsLongestPrefix | backend/app/chunking/tokenizer.py:95-117 | where nothing fuses the result is a prefix of the text less its underscores, within the budget, carrying the longest prefix of its tokens that fits |
| Tokenizer.TruncateKeepsFitting | backend/app/chunking/tokenizer.py:95-117 | any text already within the budget comes back less its underscores and trailing whitespace, and otherwise unchanged |
| Tokenizer.TruncateIdempotentExactly | backend/app/chunking/tokenizer.py:95-117 | truncating twice is truncating once if and only if the first result is within the budget |
| Tokenizer.TruncateIdempotent | backend/app/chunking/tokenizer.py:95-117 | truncating twice is truncating once whenever joining the kept fragments fuses nothing |
| Tokenizer.TruncateOverrunsOnUnderscore | backend/app/chunking/tokenizer.py:95-117 | with an underscore a result of budget 2 can count 3 |
| Sentences.Split | backend/app/chunking/boundaries.py:107-149 | the boundary loop with its abbreviation and number exceptions returns the specified sentences |
| Sentences.BoundariesOrdered | backend/app/chunking/boundaries.py:102-105 | boundary matches follow one another without overlap and each ends in whitespace |
| Sentences.SentencesConserve | backend/app/chunking/boundaries.py:107-149 | the sentences carry exactly the text's tokens and characters in order; each is a non-empty stripped part of it; none only for blank text |
| SentenceLaws.BoundariesExactly | backend/app/chunking/boundaries.py:102-105 | the boundaries are exactly the whole runs of end marks followed by any closing marks and then a whole run of whitespace, all written out over characters |
| SentenceLaws.ProtectedExactly | backend/app/chunking/boundaries.py:119-140 | a boundary is passed over exactly if its marks are a single dot and the last word before it with that dot is an abbreviation, or is one number of at most three digits and all the segment has |
| SentenceLaws.LowersLetters | backend/app/chunking/boundaries.py:121-124 | lower case letter by letter, for the letters that occur in abbreviations |
| SentenceLaws.SentencesExactly | backend/app/chunking/boundaries.py:107-149 | consecutive spans cover the text and their stripped texts are the sentences; each span but the last ends at such a run of marks, and a run inside a span ends it unless one of the two exceptions keeps the sentence open |
| SentenceLaws.OneDot | backend/app/chunking/boundaries.py:107-149 | a text with a single dot followed by a blank is two sentences, or one exactly if an exception keeps it open |
| SentenceLaws.TwoSentences | backend/app/chunking/boundaries.py:107-149 | `Hello there. How are you?` is two sentences |
| SentenceLaws.AbbreviationKeepsOpen | backend/app/chunking/boundaries.py:107-149 | `Dr. Smith left.` is one sentence |
| Headings.HeadingPathTracker.Update | backend/app/chunking/boundaries.py:21-34 | the popping loop computes the new stack from the old one, ignoring blank titles and clamping levels |
| Headings.PopIsFilter | backend/app/chunking/boundaries.py:30-32 | popping from the end removes exactly the headings at the new level or deeper, wherever they stand |
| Headings.StackRefinesHistory | backend/app/chunking/boundaries.py:11-43 | after any updates the stack is exactly the recorded headings that no later heading of equal or smaller level closed, levels strictly increasing |
| Packing.GreedyIsPartition | backend/app/chunking/strategies.py:134-204 | packing cuts the items, in order, into single items and blocks within the limits |
| Packing.GreedyStaysAhead | backend/app/chunking/strategies.py:134-204 | an open greedy block never falls behind any rival split |
| Packing.GreedyIsOptimal | backend/app/chunking/strategies.py:134-204 | no order-preserving split into single items and fitting blocks uses fewer blocks |
| Packing.GreedyIsMaximal | backend/app/chunking/strategies.py:139-175 | a block is closed only when the next item does not fit it |
| Tables.MaxWidth | backend/app/chunking/strategies.py:56 | the width of the widest row, attained by some row |
| Tables.RenderRows | backend/app/chunking/strategies.py:66-72 | the row loop prints every row cut or padded to the column count |
| Tables.RenderMarkdown | backend/app/chunking/strategies.py:51-74 | the printer returns header, separator and row lines, or nothing for an empty table |
| TableParser.RenderRoundTrip | backend/app/chunking/strategies.py:51-74 | reading a printed table back recovers exactly its headers and rows, up to newline-to-space, stripping and padding or cutting to header width |
| HeaderlessTables.HeaderlessRoundTrip | backend/app/chunking/strategies.py:51-74 | reading back a table printed without headers gives `Col 1` to `Col n`, n the length of the longest row, and every row padded to n |
| HeaderlessTables.NoCellCut | backend/app/chunking/strategies.py:51-74 | every cell of every row is read back where it stood |
| HeaderlessTables.DecimalReads | backend/app/chunking/strategies.py:59 | the column numbers are the decimals of 1, 2, ... without leading zeros |
| HeaderlessTables.EmptyRowsPrint | backend/app/chunking/strategies.py:51-74 | rows without any cell print as empty lines |
| HeaderlessTables.PrintedSample | backend/app/chunking/strategies.py:51-74 | a table of two rows, character by character as printed |
| TableParser.SlicesRoundTrip | backend/app/chunking/strategies.py:76-206 | for any table with headers every slice shows them, and the rows read from all slices in order are the table's rows |
| HeaderlessTables.HeaderlessSlicesRoundTrip | backend/app/chunking/strategies.py:76-206 | every slice of a table without headers shows numbered columns for its own longest row and its rows in full, and the slices cover all rows |
| TableSlicer.ChunkTable | backend/app/chunking/strategies.py:76-206 | the slicing loop yields one item per greedy row block with its row range, or one item when the whole table fits |
| TableSlicer.RenderMonotone | backend/app/chunking/strategies.py:51-74 | printing part of the rows is never larger, in tokens or characters, than printing all of them, with or without headers |
| TableSlicer.SlicingIsOptimal | backend/app/chunking/strategies.py:129-206 | no order-preserving split of the rows into single rows and blocks within the token, character and row limits has fewer slices |
| TableSlicer.SlicesTile | backend/app/chunking/strategies.py:129-206 | row ranges are consecutive, non-empty and cover every row, each slice printing exactly its range and being one row or within the limits; a table without rows yields its headers when they fit one chunk and nothing otherwise |
| TableSlicer.NoSlicesExactly | backend/app/chunking/strategies.py:76-206 | a table yields no chunk if and only if it has no rows and its headers are missing or too large for one chunk |
| TableSlicer.SlicesWithinExactly | backend/app/chunking/strategies.py:76-206 | every slice of a table is within a limit at or above the target if and only if each row printed alone under the headers is |
| SplitRules.TablesAreCut | backend/app/chunking/strategies.py:76-206 | a table within the soft token, character and row limits is one slice; otherwise its rows are cut into single rows and fitting blocks, closed only when the next row does not fit, each slice printing its block and naming its rows |
| SplitRules.TablesAreCutBest | backend/app/chunking/strategies.py:129-206 | no cut of the rows under these limits, written out, has fewer slices |
| Lists.ChunkList | backend/app/chunking/strategies.py:220-314 | the line loop yields the list whole when it fits, otherwise one item per greedy block of non-blank lines |
| Lists.SplittingIsOptimal | backend/app/chunking/strategies.py:258-314 | no order-preserving split of the lines into single lines and blocks within both limits has fewer chunks |
| Lists.ListConserves | backend/app/chunking/strategies.py:230-314 | the pieces carry exactly the list's tokens in order, none is blank, and each is a single line or within both limits |
| Lists.NoPiecesExactly | backend/app/chunking/strategies.py:224-314 | a list yields no chunk if and only if it is blank |
| Lists.ListWithinExactly | backend/app/chunking/strategies.py:230-314 | every chunk of a list is within a limit at or above the target if and only if each of its lines is |
| SplitRules.ListsAreCut | backend/app/chunking/strategies.py:220-314 | a list within the soft limits is one piece; otherwise its non-blank lines are cut late into blocks joined by newlines |
| SplitRules.ListsAreCutBest | backend/app/chunking/strategies.py:258-314 | no cut of the lines under these limits, written out, has fewer pieces |
| Blocks.SliceFragment | backend/app/chunking/strategies.py:509-511 | an over-long fragment is cut into consecutive slices of the character limit |
| Blocks.SliceFragments | backend/app/chunking/strategies.py:506-513 | only over-long fragments are cut, the order is kept |
| Blocks.SplitHugeSentence | backend/app/chunking/strategies.py:501-545 | the window loop returns the stripped non-empty texts of the greedy windows |
| Blocks.ChunkBlock | backend/app/chunking/strategies.py:336-499 | the recursion returns the block whole when within the hard limits, otherwise the pieces of its paragraphs or sentences |
| Blocks.ChunkParagraphs | backend/app/chunking/strategies.py:372-389 | the pieces of the paragraphs, in order |
| Blocks.ChunkSentences | backend/app/chunking/strategies.py:391-499 | the accumulation loop flushes before oversized sentences and when a sentence no longer fits |
| Blocks.ParagraphsShorter | backend/app/chunking/strategies.py:372-389 | of several paragraphs each is strictly shorter than the text, so the recursion ends |
| BlockLaws.SplitHugeBounded | backend/app/chunking/strategies.py:501-545 | for any sentence the windows are non-empty and within the character limit and keep every character that is neither whitespace nor underscore |
| BlockLaws.PiecesBounded | backend/app/chunking/strategies.py:336-545 | for any text every piece is non-empty, stripped and within the character limit, and no character other than whitespace and underscores is lost or reordered |
| WindowTokens.WindowingKeepsExactly | backend/app/chunking/strategies.py:501-545 | for every sentence the windows carry exactly its tokens, in order, if and only if no token is longer than the character limit and each window's text lexes to the window's own tokens |
| WindowTokens.NothingFusedInWindows | backend/app/chunking/strategies.py:506-543 | where nothing fuses in a sentence without over-long tokens, no window fuses tokens |
| Conservation.ConservedExactly | backend/app/chunking/strategies.py:506-513 | for every text the pieces carry exactly its tokens, in order, if and only if every oversized sentence of its paragraphs has no token longer than the character limit and no window that fuses two |
| Conservation.LengthDecides | backend/app/chunking/strategies.py:336-545 | where no window fuses tokens, they are conserved if and only if none is longer than the character limit |
| BlockPacking.WindowingIsOptimal | backend/app/chunking/strategies.py:501-545 | no order-preserving split of a sentence's fragments into single fragments and windows within the limits gives fewer windows |
| BlockPacking.SentencePackingIsOptimal | backend/app/chunking/strategies.py:391-499 | no order-preserving split of the sentences into single sentences and fitting runs gives fewer pieces, oversized sentences being windowed either way |
| SplitRules.CascadeExactly | backend/app/chunking/strategies.py:336-389 | the paragraph recursion, unrolled: a text within the hard limits stays whole, any other is the pieces of its paragraphs, each whole within the hard limits or else packed by sentences |
| SplitRules.ParagraphsExactly | backend/app/chunking/strategies.py:372-376 | the paragraphs are the stripped parts between blank lines that hold anything |
| SplitRules.SentencesAreCut | backend/app/chunking/strategies.py:391-499 | sentences are cut late into runs joined by blanks within the soft limits, with oversized ones alone and windowed |
| SplitRules.SentencesAreCutBest | backend/app/chunking/strategies.py:391-499 | no cut of the sentences under these limits, written out, has fewer pieces |
| SplitRules.SentencesAreWindowed | backend/app/chunking/strategies.py:501-545 | the sliced fragments are cut late into windows within the soft limits, and the pieces are their stripped non-empty texts |
| SplitRules.WindowsAreCutBest | backend/app/chunking/strategies.py:501-545 | no cut of the fragments under these limits, written out, has fewer windows |
| BlockLimits.PiecesWithinExactly | backend/app/chunking/strategies.py:336-545 | for every text all pieces are within a limit, at or above the target and hard limits, if and only if every window of its oversized sentences is |
| BlockLimits.WordsDecide | backend/app/chunking/strategies.py:336-545 | where no window fuses tokens, the windows are within a limit well below the character limit if and only if every single word of the text is, over-long words included |
| MuteText.NoPiecesExactly | backend/app/chunking/strategies.py:336-545 | a text yields no piece if and only if it is blank, or is nothing but underscores and whitespace with every paragraph longer than the character limit |
| Hierarchy.GroupItems | backend/app/chunking/parent_child.py:41-58 | the grouping loop starts a new group exactly where the section key changes |
| Hierarchy.GroupsAreMaximalRuns | backend/app/chunking/parent_child.py:46-58 | the groups concatenate to the items, each is non-empty and of one section, and neighbours differ in section |
| Hierarchy.SynthesizeParent | backend/app/chunking/parent_child.py:71-84 | the joined contents, truncated when they exceed the parent limit |
| Hierarchy.BuildChildren | backend/app/chunking/parent_child.py:123-160 | one child per item, numbered on from the parent and pointing to it |
| Hierarchy.BuildHierarchy | backend/app/chunking/parent_child.py:31-162 | the chunks of all groups, parent first, with one running index |
| Hierarchy.CollectIds | backend/app/chunking/validators.py:23-36 | reports a duplicate exactly when two chunks share an identifier, and otherwise collects all identifiers and those of parents |
| Hierarchy.CheckChunk | backend/app/chunking/validators.py:39-137 | passes a chunk exactly when content, index, ownership, length, token limit and parent reference are in order |
| Hierarchy.ValidateChunks | backend/app/chunking/validators.py:10-141 | accepts exactly the batches with distinct identifiers and indices in which every chunk is sound |
| ChunkFields.AcceptableExactly | backend/app/chunking/validators.py:10-141 | a batch is accepted if and only if, field by field, identifiers and positions are unique and every chunk has ink, its own length, the owners, at most its limit and 50 tokens, and a parent reference that names another chunk of the batch which is a parent |
| HierarchyLaws.ParentNotBlank | backend/app/chunking/parent_child.py:71-84 | a parent over non-blank items that each fit a parent is never blank, truncated or not |
| HierarchyLaws.ParentTextFits | backend/app/chunking/parent_child.py:71-84 | a parent's text never exceeds the parent limit if its group is within it or truncation fuses nothing in the part it keeps |
| HierarchyLaws.HierarchyShape | backend/app/chunking/parent_child.py:60-162 | indices are exactly 0, 1, 2, ..., identifiers are distinct, and each child points to the nearest parent before it |
| ChunkFields.ChunksShowItems | backend/app/chunking/parent_child.py:60-162 | the non-parent chunks show exactly the items in order: text, kind, place, row range, owners, counts and identity; the parents show exactly the groups, cut off at the parent limit, at the place of the first item |
| ChunkFields.ParentsAreSections | backend/app/chunking/parent_child.py:41-58 | neighbouring items get the same parent if and only if they are filed under the same section: their own, or the top heading, or a default |
| ChunkFields.IdentityExactly | backend/app/chunking/hashing.py:33-45 | two chunk identifiers agree if and only if document, position, settings version and words do |
| HierarchyLaws.AcceptedIffWithinLimits | backend/app/chunking/validators.py:10-141 | the hierarchy over any items that are not parents themselves passes its own validator if and only if every item and every parent text is non-blank and within its limit |
| HierarchyLaws.AcceptedExactly | backend/app/chunking/validators.py:88-106 | over non-blank items the hierarchy passes its own validator if and only if every item is within the hard limit plus 50 and every parent text within the parent limit plus 50 |
| Pipeline.MergeSmallChunks | backend/app/chunking/service.py:241-291 | the index-driven loop joins a small heading or text with the item after it and steps over both |
| Pipeline.DeduplicateRawItems | backend/app/chunking/service.py:293-307 | the loop keeps the items whose key was not seen before |
| Pipeline.ExtractBlock | backend/app/chunking/service.py:184-239 | one block's items, and the heading stack it leaves |
| Pipeline.ExtractBlocks | backend/app/chunking/service.py:160-171 | the items of consecutive blocks, each seeing the stack the earlier ones left |
| Pipeline.ExtractSections | backend/app/chunking/service.py:129-150 | sections in order, each pushing its own heading first |
| Pipeline.ExtractPages | backend/app/chunking/service.py:152-182 | pages in order, each page's blocks before its tables |
| Pipeline.ExtractPageTables | backend/app/chunking/service.py:172-181 | a page's tables under the heading path reached by its blocks |
| Pipeline.ExtractStandalone | backend/app/chunking/service.py:70-81 | top-level tables under their sheet name or a fixed section |
| Pipeline.ExtractAll | backend/app/chunking/service.py:49-96 | sections win over pages, tables come last, and the title stands in only when nothing was found |
| ReadingOrder.ExtractionIsReading | backend/app/chunking/service.py:49-182 | extraction with its threaded heading stack is reading the document once, front to back, each thing yielding its items after exactly the headings met before it |
| ReadingOrder.EveryItemWasRead | backend/app/chunking/service.py:49-182 | every extracted item was yielded by one of the things read |
| ReadingOrder.ItemsStand | backend/app/chunking/service.py:129-239 | an item shows as path and joined by arrows exactly the titles of the headings met that no later one at the same or a smaller level closed, with its page, section and kind |
| ReadingOrder.TitleStands | backend/app/chunking/service.py:83-96 | where nothing else yields an item, the stripped title does, under itself |
| Pipeline.ChunkDocument | backend/app/chunking/service.py:43-127 | extraction, merging, deduplication, hierarchy and validation in this order; nothing is rejected exactly when the batch is sound |
| PipelineLaws.MergingConserves | backend/app/chunking/service.py:241-291 | merging keeps every token in order and every table item as it is |
| PipelineLaws.MergingPartitions | backend/app/chunking/service.py:246-291 | merging cuts the items into consecutive groups of one or two and yields one item per group, a pair joining two non-tables within the soft limits; no mergeable pair is left unmerged |
| PipelineLaws.MergedOrigins | backend/app/chunking/service.py:262-284 | every merged item is an item from before or two neighbours joined within the soft limits |
| Duplicates.MergeableExactly | backend/app/chunking/service.py:246-276 | two items may be joined exactly if the first is a heading or text below the small limit, the second is no table, and together they are within the soft token and the character limit |
| Duplicates.CompositeExactly | backend/app/chunking/service.py:262-284 | a merged pair shows both texts with a blank line between, and each piece of its origin from the first item where that has one, else from the second |
| PipelineLaws.LargeSurvives | backend/app/chunking/service.py:241-291 | an item above the soft target comes through merging as it is |
| Duplicates.DroppedExactly | backend/app/chunking/service.py:293-307 | an item is dropped if and only if an earlier one has the same words, the same heading context, none counting as empty, and the same page; the others stay in order |
| Duplicates.OtherPlacesStay | backend/app/chunking/service.py:299-304 | the same text on another page or under another heading stays |
| Duplicates.NormalisedIsWords | backend/app/chunking/hashing.py:9-21 | the normalised text is the words of the text with one blank between them |
| Duplicates.SameHashSameWords | backend/app/chunking/hashing.py:24-30 | two content hashes agree if and only if the texts have the same words |
| PipelineLaws.DedupIdempotent | backend/app/chunking/service.py:293-307 | survivors have distinct keys, and deduplicating again changes nothing |
| PipelineLaws.SameKeySameCount | backend/app/chunking/hashing.py:9-30 | items with one deduplication key have the same token count, so a dropped duplicate never decides acceptance |
| ExtractedItems.DefaultIsRoomy | backend/app/chunking/config.py:10-37 | the default settings satisfy the inequalities the pipeline results assume |
| DocumentParts.TitleUsedExactly | backend/app/chunking/service.py:49-96 | sections, pages and tables yield no item, so that the title is used, if and only if each part that is read is blank, mute or without rows and headers that fit |
| ExtractedItems.RawItemsExact | backend/app/chunking/service.py:49-96 | for every document no extracted item is blank, and all are within the hard limit plus 50 if and only if every heading, list line, table row and window that is used is, and the title where it stands in |
| DocumentLaws.AcceptedIffExtractedSized | backend/app/chunking/service.py:98-127 | merging and deduplication decide nothing about sizes: every document is accepted if and only if every extracted item and every parent text is within its limit |
| DocumentLaws.DocumentAcceptedExactly | backend/app/chunking/service.py:43-127 | every document is accepted if and only if each part that is used fits and no parent text exceeds the parent limit plus 50 |
| DocumentLaws.WordsDecideAcceptance | backend/app/chunking/service.py:43-127 | where neither a window nor a truncated parent fuses tokens, a document is accepted if and only if every heading, list line, table row and single word of running text that is used fits |
| DocumentLaws.PlainDocumentAccepted | backend/app/chunking/service.py:43-127 | the same for every document in whose used texts nothing fuses, such as one without underscores |
| RejectedDocuments.LongHeadingRejected | backend/app/chunking/validators.py:88-106 | with the default settings a heading of 3408 letters or more makes the pipeline reject its own chunks |
| RejectedDocuments.UnderscoresReject | backend/app/chunking/strategies.py:501-545 | 364 words of eleven letters joined by underscores count 364 with each word costing 1, and the pipeline rejects the paragraph |
| RejectedDocuments.ParentOverruns | backend/app/chunking/parent_child.py:71-84 | a section of two headings of 850 and 849 words joined by underscores fits part by part, and the pipeline rejects it because truncating the parent fuses 850 words |
| DocumentTokens.ExtractionCarries | backend/app/chunking/service.py:49-96 | for every document the extracted items spell out the characters of its used texts, and carry exactly their tokens if and only if every oversized sentence survives windowing |
| DocumentTokens.ChunksCarryTheDocument | backend/app/chunking/service.py:43-127 | for every document the non-parent chunks carry exactly the tokens of its used texts, in order, if and only if every oversized sentence of the running text survives windowing and every merged item with the words, heading context and page of an earlier one is without tokens |
| AuthStore.FindToken | backend/app/auth/repository.py:99-113 | the token with this digest, or none when no token has it |
| AuthStore.FindReset | backend/app/auth/repository.py:156-167 | a reset token with this digest that is unused and unexpired |
| AuthStore.AuthRepository.RevokeTokens | backend/app/auth/repository.py:87-134 | row by row, exactly the active tokens of the family or user are revoked, and their number is returned |
| AuthStore.AuthService.Register | backend/app/auth/service.py:30-63 | a weak password or a known address changes nothing, otherwise one user is added |
| AuthStore.AuthService.Login | backend/app/auth/service.py:65-122 | correct credentials of an active user add one unrotated token of the supplied family, anything else changes nothing |
| AuthStore.AuthService.Refresh | backend/app/auth/service.py:124-219 | unknown, revoked, expired and inactive cases in this order; a revoked token revokes its family; success revokes the token and adds its successor |
| AuthStore.AuthService.Logout | backend/app/auth/service.py:221-234 | at most the presented active token is revoked |
| AuthStore.AuthService.LogoutAll | backend/app/auth/service.py:236-245 | all active tokens of the user are revoked and counted |
| AuthStore.AuthService.ChangePassword | backend/app/auth/service.py:247-273 | wrong, weak or unchanged passwords change nothing; success replaces the password and revokes the user's tokens |
| AuthStore.AuthService.ForgotPassword | backend/app/auth/service.py:275-303 | an active user gets one more reset token, whose secret is returned only in development and testing; tokens and users are untouched |
| AuthStore.AuthService.ResetPassword | backend/app/auth/service.py:305-333 | success uses up the reset token, replaces the password and revokes the user's tokens; failures change nothing |
| AuthAnswers.RefreshExactly | backend/app/auth/service.py:124-219 | for every stored token: a refresh is answered with a new pair if and only if the token is unrevoked and unexpired and its user exists and is active; each refusal has its own cause, and only a reuse changes the store, by ending the family |
| AuthAnswers.UnknownRefresh | backend/app/auth/service.py:133-146 | a secret that is not stored changes nothing and is refused as invalid |
| AuthAnswers.RegisterExactly | backend/app/auth/service.py:30-63 | one active user is added if and only if the password has eight characters and the address is new |
| AuthAnswers.LoginExactly | backend/app/auth/service.py:65-122 | a user logs in if and only if the account is active and the non-empty password is the user's own, and gets the first token of a new family |
| AuthAnswers.UnknownLogin | backend/app/auth/service.py:65-96 | an unknown address is refused like a wrong password |
| AuthAnswers.LogoutExactly | backend/app/auth/service.py:221-234 | of all rows at most the presented one changes, and only if it is active |
| AuthAnswers.UnknownLogout | backend/app/auth/service.py:221-234 | without a stored token nothing changes |
| AuthAnswers.LogoutAllExactly | backend/app/auth/service.py:236-245 | exactly the user's active tokens are revoked, and their number is reported |
| AuthAnswers.ChangePasswordExactly | backend/app/auth/service.py:247-273 | the password changes if and only if the current one is given and the new one is long enough and different; each refusal has its own cause and changes nothing |
| AuthAnswers.ForgotPasswordExactly | backend/app/auth/service.py:275-303 | one reset row is filed exactly for an active user with the address; otherwise nothing changes and the answer is the same as outside development |
| AuthAnswers.ResetPasswordExactly | backend/app/auth/service.py:305-333 | a link works if and only if it is unused and unexpired, its user active and the password long enough; each refusal has its own cause and changes nothing |
| AuthAnswers.UnknownReset | backend/app/auth/service.py:305-318 | a link that is not stored changes nothing |
| AuthAnswers.RunsStaySound | backend/app/auth/service.py:30-333 | in every store a run from the empty one reaches, secrets, links and addresses identify their rows |
| AuthAnswers.DisabledCannotRefresh | backend/app/auth/service.py:178-187 | a user whose account is switched off cannot refresh any more |
| AuthRuns.StepKeepsInv | backend/app/auth/service.py:30-333 | every call keeps all lineage invariants, never un-revokes a token and never edits any other field of a row |
| AuthRuns.LineagesStayLinear | backend/app/auth/service.py:124-219 | over every run each family has one user and is one linear chain of rotations in which only the newest token can be unrevoked |
| AuthRuns.AtMostOneSuccessor | backend/app/auth/service.py:189-206 | no token is rotated into two |
| AuthRuns.RedeemedOnce | backend/app/auth/service.py:189-206 | in any run a refresh token is answered with a new pair at most once |
| AuthRuns.FamilyIsLineage | backend/app/auth/repository.py:62-85 | a later token descends from an earlier one by rotation if and only if both are of one family |
| AuthRuns.DeadIsFinal | backend/app/auth/service.py:147-162 | a family without active tokens never has one again and none of its tokens is ever redeemed |
| AuthRuns.ReuseIsFinal | backend/app/auth/service.py:147-162 | after detected reuse no token of the family, old or later, is active or redeemable through any further events |
| AuthRuns.SignOutIsFinal | backend/app/auth/service.py:236-333 | after logout-all, password change or reset no token the user had, and no descendant of one, is ever active or redeemable again |
| AuthCredentials.IssuedTokenIsRedeemable | backend/app/auth/service.py:164-206 | a token just issued by login or rotation is redeemable exactly until it expires |
| AuthCredentials.LogoutEndsLineage | backend/app/auth/service.py:221-234 | logging out ends the token's whole lineage if and only if that token is still active or the lineage was over already |
| AuthCredentials.RotatedLogoutLeavesSuccessor | backend/app/auth/service.py:221-234 | a run from the empty store: register, login, refresh, logout with the rotated token, after which its successor is redeemed |
| AuthCredentials.LogoutIsFinal | backend/app/auth/service.py:221-234 | after a logout with an active token nothing of its lineage is ever active or redeemable again |
| AuthCredentials.PasswordReplaced | backend/app/auth/service.py:247-333 | after a successful change or reset the user logs in with the new password and no other, everyone else as before |
| AuthCredentials.ResetOnce | backend/app/auth/repository.py:156-175 | in any run a password reset token works at most once |
| Budgets.TokenBudget.Check | backend/app/agents/budgets.py:43-62 | raises exactly when the estimate exceeds the total or a positive part exceeds its cap, and reports the first of total, input and output that does |
| Budgets.TokenBudget.Consume | backend/app/agents/budgets.py:64-86 | the new usage, and the first cap it exceeds; usage is recorded even when a cap is exceeded |
| Budgets.StepBudget.CheckStep | backend/app/agents/budgets.py:117-119 | passes exactly while steps are left |
| Budgets.StepBudget.CheckToolCall | backend/app/agents/budgets.py:126-130 | passes exactly while tool calls are left |
| Budgets.StepBudget.ConsumeStep | backend/app/agents/budgets.py:121-124 | counts the step and reports an overrun exactly past the limit |
| Budgets.StepBudget.ConsumeToolCall | backend/app/agents/budgets.py:132-135 | counts the call and reports an overrun exactly past the limit |
| Budgets.BalancedExactly | backend/app/agents/budgets.py:69-73 | input plus output stays equal to the total if and only if the reported count is not negative |
| Budgets.NegativeCountUnbalances | backend/app/agents/budgets.py:69-73 | a report of -5 tokens breaks the balance |
| Budgets.ExplicitReport | backend/app/agents/budgets.py:64-68 | a report with explicit parts charges them as given and keeps the balance if and only if neither is negative |
| Budgets.CapsExactly | backend/app/agents/budgets.py:21-33 | a limit that is given holds as given, one that is not is four fifths or one fifth of the total, rounded down |
| Budgets.ExceededExactly | backend/app/agents/budgets.py:75-86 | the cap reported is the total if exceeded, else the input, else the output |
| Budgets.FourFifthsTruncate | backend/app/agents/budgets.py:72-73 | four fifths of a count are truncated toward zero for either sign |
| Budgets.SharesBounded | backend/app/agents/budgets.py:69-73 | over any non-negative reports the parts sum to the total and drift from exact fifths by less than one token per report |
| Budgets.WithinCapsExactly | backend/app/agents/budgets.py:64-86 | after non-negative reports no cap is exceeded if and only if their rounded-up fifths fit the output share |
| Budgets.NeverRaisesExactly | backend/app/agents/budgets.py:64-86 | non-negative reports never raise if and only if the sum of their rounded-up fifths is within a fifth of the maximum |
| Budgets.RoomyRunNeverRaises | backend/app/agents/budgets.py:64-86 | n reports totalling T never raise when T + 4n is at most five times a fifth of the maximum |
| Budgets.RoundingCanRaise | backend/app/agents/budgets.py:71-86 | two reports of one token against a budget of five exceed the output share |
| Budgets.TotalCapFollows | backend/app/agents/budgets.py:28-30 | along any run of non-negative reports the total cap follows from the two default part caps |
| AgentPlan.TerminalIsFinal | backend/app/agents/state.py:11-76 | no sequence of transitions leaves a terminal status, and every other status can be cancelled at once |
| AgentOutcomes.EnteredFrom | backend/app/agents/state.py:11-54 | from exactly which statuses each status can be entered |
| AgentPlan.ValidatePlan | backend/app/agents/plan.py:22-72 | accepts exactly the plans within the limits whose sequences are 1..n with known tools and proper rationales; the duplicate check can never be the one that fails |
| AgentOutcomes.GoodPlanExactly | backend/app/agents/plan.py:40-72 | a plan is good exactly if its sequences are 1 to n, its tools known, and its rationales at least 3 characters stripped and at most 500 as given |
| AgentRuntime.MaterialiseSteps | backend/app/agents/service.py:115-129 | one pending step per planned step, in order |
| AgentRuntime.CreateSession | backend/app/agents/service.py:47-146 | a session exists exactly when the plan is valid, and is then planned, unstarted and holds exactly the plan's steps |
| AgentRuntime.LoopDetector.RecordAndCheck | backend/app/agents/executor.py:26-31 | the call is recorded and refused exactly when it now occurs `threshold` times |
| AgentOutcomes.OccurrencesCount | backend/app/agents/executor.py:26-31 | the count compared with the threshold is the multiplicity of the call in the run's history |
| AgentRuntime.FindCheckpoint | backend/app/agents/checkpoints.py:72-93 | the latest checkpoint of the same tool and input, or none when there is none |
| AgentRuntime.LatestApproval | backend/app/agents/approvals.py:88-114 | the step's latest request, or none when the step has none |
| AgentRuntime.Run.constructor | backend/app/agents/runtime.py:80-90 | a run starts with fresh budgets and an empty call history |
| AgentRuntime.Run.PreFlight | backend/app/agents/budgets.py:175-181 | refuses exactly when a step, call, time or token limit is reached |
| AgentRuntime.Run.ChargeBudgets | backend/app/agents/executor.py:127-131 | budgets are charged in order, stopping at the first overrun |
| AgentRuntime.Run.Execute | backend/app/agents/executor.py:55-144 | existence, loop, replay, authorisation, schema and budget gates in this order; the result and the run's new accounts |
| AgentRuntime.AgentSession.PassGate | backend/app/agents/runtime.py:154-198 | the gate opens, files a request, waits or fails the session, and changes nothing else |
| AgentRuntime.AgentSession.CompleteStep | backend/app/agents/runtime.py:223-249 | the step is completed with its data and tokens, one checkpoint is added, the current step moves |
| AgentRuntime.AgentSession.BreakStep | backend/app/agents/runtime.py:251-256 | the step and the session fail, or the session exceeds its budget |
| AgentRuntime.AgentSession.ExecuteSteps | backend/app/agents/runtime.py:145-275 | the step loop over the objects of a run refines the recursive run over values |
| AgentRuntime.AgentSession.ExecuteSession | backend/app/agents/runtime.py:73-363 | an illegal status changes nothing, otherwise the session runs and its final status is reported |
| AgentRuntime.AgentSession.StartSession | backend/app/agents/service.py:196-220 | without permission nothing changes, otherwise the session is executed |
| AgentRuntime.AgentSession.ResumeSession | backend/app/agents/service.py:247-288 | only a paused, waiting or startable session is resumed |
| AgentRuntime.AgentSession.CancelSession | backend/app/agents/service.py:222-245 | a session is cancelled exactly when the transition is valid |
| AgentRuntime.AgentSession.ResolveApproval | backend/app/agents/approvals.py:71-86 | only this request's status changes, even if it had been decided before |
| AgentHistory.FinishedStep | backend/app/agents/executor.py:71-97 | a step repeating an earlier idempotent call completes without running, with the same data and no tokens |
| AgentHistory.StepDoneKeepsInv | backend/app/agents/runtime.py:215-249 | a completed step keeps the invariant and moves the current step by exactly one |
| AgentHistory.RunKeepsInv | backend/app/agents/runtime.py:145-363 | a run keeps the invariant, only extends the session, and leaves it waiting at a gate or ended |
| AgentHistory.OpKeepsInv | backend/app/agents/service.py:196-288 | every service call keeps the invariant, moves the status along valid transitions and leaves a terminal status alone |
| AgentHistory.HistoriesAreSound | backend/app/agents/runtime.py:145-256 | over every history completed steps are a prefix of the plan, as many as the current step and the checkpoints; each tool runs at most once per step and, if gated, only under an approval; at most one request per step; terminal statuses never change |
| AgentHistory.AcceptedPlanIsPlanned | backend/app/agents/service.py:115-129 | the session made from a valid plan is the starting point that the history results ask for |
| AgentHistory.CreatedSessionsStaySound | backend/app/agents/service.py:47-288 | through any history of a session made from a valid plan the invariant holds and the steps keep the plan's tools and inputs |
| AgentOutcomes.PlanIsFollowed | backend/app/agents/service.py:47-288 | through any history of a session made from a valid plan, every tool that really ran was that of a planned step with the planned input, and only under an approval if the plan or the profile asks for one |
| AgentHistory.IdempotentCallsRunOnce | backend/app/agents/executor.py:71-97 | within a session an idempotent tool is really executed at most once per tool and input |
| AgentHistory.RunIsBounded | backend/app/agents/runtime.py:145-275 | from any point of a run, identical calls among its completed steps stay below the loop threshold, and reported tokens are their sum and within the cap |
| AgentHistory.FreshRunIsBounded | backend/app/agents/runtime.py:81-90 | the same bounds for each start or resume, counted from the step it began at |
| AgentProgress.DecisionSetsGate | backend/app/agents/approvals.py:71-114 | after a decision the step's gate is open or denied as decided, and every other gate is as it was |
| AgentProgress.StepFinishesExactly | backend/app/agents/executor.py:55-144 | at any point of a run a step with an open gate finishes if and only if its call is not a loop and it is replayed, or authorised, valid and answered within the call, time, token and cost limits |
| AgentProgress.RunCompletesExactly | backend/app/agents/runtime.py:145-293 | a run completes the session if and only if no remaining call occurs as often as the loop threshold and no remaining step is hindered by its gate, tool or limits, for plans of any length |
| AgentOutcomes.RunStopsExactly | backend/app/agents/runtime.py:145-363 | at the first remaining step that does not pass the run stops: awaiting approval if and only if the gate asks or waits, over budget if and only if a step, call, time, token or cost limit stopped an admitted call, and failed in every other case; what the session then holds is stated in full |
| AgentOutcomes.GateExactly | backend/app/agents/approvals.py:88-114 | a gate is open if no approval is needed or the step's request is approved, asks without a request, waits while it is pending, and denies when it is rejected or expired |
| AgentOutcomes.ApprovedExactly | backend/app/agents/approvals.py:88-114 | an execution is logged as approved exactly if the step's request stood approved |
| AgentOutcomes.RunRecords | backend/app/agents/runtime.py:201-256 | every step completed in a run holds what its own tool answered, or the data it replays at no cost |
| AgentOutcomes.StartExactly | backend/app/agents/service.py:196-220 | without permission nothing happens; a planned, waiting, paused or executing session runs; any other is refused and left alone |
| AgentOutcomes.ResumeExactly | backend/app/agents/service.py:247-288 | the same without executing sessions, which are refused |
| AgentOutcomes.CancelExactly | backend/app/agents/service.py:222-245 | exactly the sessions that have not ended are cancelled, and nothing but the status changes |
| AgentOutcomes.DecideExactly | backend/app/agents/approvals.py:71-86 | a decision reaches one existing request and nothing else |
| AuditChain.VerifyLedger | backend/app/compliance/audit_integrity.py:56-116 | the verdict names the first record whose carried hash contradicts the chain, then compares the end hash |
| AuditChain.FirstMismatch | backend/app/compliance/audit_integrity.py:77-97 | the first record from a position on whose carried hash contradicts the chain: it does, and none before it does |
| AuditChain.ChainIsFold | backend/app/compliance/audit_integrity.py:50-73 | the chain hash is the forward fold of the records' fields from the organisation's root hash |
| AuditChain.VerdictExactly | backend/app/compliance/audit_integrity.py:56-116 | the whole verdict for every ledger: INCOMPLETE if empty, INVALID at and naming the first record with a wrong hash, INVALID as a whole if the published end hash differs, VALID otherwise, with the hashes reported |
| AuditChain.ChainInjective | backend/app/compliance/audit_integrity.py:50-73 | equal end hashes mean the same organisation and the same canonical records, for ledgers of any lengths |
| AuditChain.ValidMeansPublished | backend/app/compliance/audit_integrity.py:99-107 | VALID against a published end hash means the records are those of the published ledger |
| AuditChain.ValidExactly | backend/app/compliance/audit_integrity.py:56-116 | a ledger is VALID if and only if it is non-empty, no carried hash contradicts the chain and the end hash is the published one when given |
| AuditChain.AlterationLocated | backend/app/compliance/audit_integrity.py:77-97 | a record altered first at index i gives INVALID after i+1 records, naming that record |
| AuditChain.DisplacementLocated | backend/app/compliance/audit_integrity.py:77-97 | a genuine record standing at another place is found exactly there |
| AuditChain.DeletionLocated | backend/app/compliance/audit_integrity.py:77-97 | a deleted record other than the last is found at its place, naming the record now there |
| AuditChain.InsertionLocated | backend/app/compliance/audit_integrity.py:77-97 | an inserted record that carries a hash other than the one it would have there is found and named at its place, otherwise the genuine record right after it is |
| AuditChain.GenuineRecordVouches | backend/app/compliance/audit_integrity.py:77-107 | a genuine record standing in a VALID ledger stands at its own place, and all records up to it are the original ones |
| AuditChain.TruncationShownByPublishedHash | backend/app/compliance/audit_integrity.py:99-107 | records cut off the end are found if and only if the end hash was published |

## Left out

- Unicode: NFKC normalisation, the character tables and the regular-expression engine; text arrives normalised and classified. Lower-casing covers the letters that occur in the abbreviation list, so a character that lower-cases to several is outside it.
- Cryptography: SHA-256, UUIDv5, Argon2, JWT and random generation, replaced by injective or fresh values. The 32-bit and 64-bit ranges of database columns are not modelled.
- HierarchyLaws.AcceptedExactly: assumes non-blank items and a parent limit at least 50 above the hard chunk limit, as the defaults have; `AcceptedIffWithinLimits` has neither condition.
- AuthRuns.LineagesStayLinear: calls are atomic; row locks, commits and rollbacks are not modelled. Accounts are switched on and off by a separate event that stands for administration.
- AuthCredentials.LogoutIsFinal: about logouts that present the active token; `RotatedLogoutLeavesSuccessor` shows what happens with a rotated one.
- AgentHistory.HistoriesAreSound: calls are atomic; a cancellation that arrives while a run is under way is not modelled. In the code the catch-all handler would then write FAILED over CANCELLED.
- AgentHistory.FreshRunIsBounded: per run only, because the runtime builds new budgets and a new loop detector for every call.
- AgentRuntime.Run.ChargeBudgets: token counts reported by tools are natural numbers; what a negative count does to a budget is settled in `BalancedExactly`. The cost budget is floating point and enters as one yes-or-no answer per step after the tool ran; its check before the step adds nothing to that.
- Budgets.SharesBounded: the factors 0.8 and 0.2 are exact fractions, not floating-point numbers.
- Source locators other than the row range of a table slice, item metadata, evidence lists, citations, the final answer text and quality metrics.
- E-mail normalisation, e-mail verification, user agents, addresses, access tokens and all logging and audit rows written along the way.
- Agent planning, memory injection, tool bodies, permissions beyond a verdict, analyst routing and merging.
- The rest of compliance (assessor, posture, readiness, retention, classification, reports), routers, schemas, database models, migrations and the frontend.
