# Verified models of TennoWorth's kernels

TennoWorth is a desktop application for trading in Warframe. Most of it is user interface and input/output;
this project models the self-contained algorithms inside it and proves what each of them is for. Every model
is Dafny: values and recursion where the program is expressions, classes, arrays and loops where the program
changes things step by step. A loop is proved equal to a function, and the lemmas about that function are the
results. What the function means is stated without it: in the modules named for meaning, ranking, rows, counts,
grammar and errors a result is described by its inputs alone. `dafny verify dfyconfig.toml` checks everything.

| files | kernel |
|---|---|
| `TradeSession*.dfy`, `Sorting.dfy` | the Trade Session allocator: judging candidates, ranking, allocating lots over a shared pool |
| `Message*.dfy`, `JsText.dfy` | the message language: parser, printer, formatter |
| `Po*.dfy`, `Catalog*.dfy` | reading and writing PO files, keeping catalogs in step with the English source |
| `ScanPatterns.dfy`, `ChunkScan.dfy`, `PatternBudget.dfy`, `ScanSession.dfy`, `ScanCounts.dfy` | the memory scan: capture analysis, overlapping chunks, work budget, the scan as a whole, what it counts |
| `Policy*.dfy` | the signed policy store: accept, activate, crash, restart |
| `Gate.dfy` | the collectors' request gate |
| `Redact.dfy` | removing session credentials from messages |
| `WholeLots.dfy`, `Buyers*.dfy` | selling to the buyers on the book in whole lots |
| `Mastery.dfy` | the mastery band of a usage curve, the parent of a part |
| `Inventory*.dfy` | flattening and counting an inventory document |
| `Outcome.dfy`, `Numbers.dfy`, `Sequences.dfy`, `Places.dfy` | results and options, numbers, laws of concatenation, places in a sequence |

Conventions. Strings are sequences of characters; only the key by which candidates are ranked is given as UTF-16
code units. Prices and scores are reals, and counts are integers wherever the program has made them integral.
Things the program asks others for are parameters: the clearing price, locale data, base64 and JSON decoding,
signature checking, how many bytes a read returns, collation. A JavaScript object used as a table is a list of
distinct keys in the order the language enumerates them (array-index keys first, ascending).

Where a promise of the code turned out to hold only under a condition, the condition is part of the theorem:

- A reviewed translation keeps track of its English through any number of edits exactly when its entry carries
  no `#| msgid` of another English (`DraftProvenance`). `syncCatalog` drops a stale `#| msgid` only when the
  English stays the same; when it changes, the stale one is taken over as the English it came from
  (`StaleProvenance`), and there are catalog files that read as such entries (`StaleFileMisleads`).
- A catalog written by the tool is in step exactly when no source with an empty key has a text
  (`SyncReachesFixedPoint`): such an entry is refused or read as a header when it comes back.
- The mastery band's loop ends exactly when no unfinished band on the way from the first peak is stuck at the left
  edge, with -1 or less on its right, or leaves the right end, with less than -1 on its left (`EndsExactly`).
  Entries above -1, all that the callers' validation lets through, are enough (`ValidCurvesEnd`); a negative entry
  may keep it going for ever or never be met (`NegativeEntryNeverEnds`, `NegativeEntryMayEnd`).
- A short piece of memory is certain to be seen whole exactly when every read but the first and the last returns
  at least the overlap (`ShortPiecesSeen`).
- The capture analysis is exact on patterns without look-arounds, empty classes and empty alternations, and
  may refuse too much elsewhere (`GuaranteedIsExact`, `RefusesTooMuch`).
- The greedy fill of buyers is best when all eligible orders share a lot size; with mixed lots it can lose, but
  never more than five units at the best price (`ComparisonIsBestForOneLot`, `ComparisonIsNearlyBest`,
  `MixedLotsCanLose`).

## Model

| member | source | states |
|---|---|---|
| TradeSessionRun.SelectSession | rust/market-domain/src/trade_session.rs:90-351 | The whole of `select_session` as it runs - counting slugs, filling the pool, judging, sorting, allocating, emitting - yields the plan the theorems below are about, and its exchanges in the order it made them: each found the goal still open, and without the one made last the plan falls short of the goal. |
| TradeSessionRun.Allocation.TryAdd | rust/market-domain/src/trade_session.rs:279-306 | One `add`: refused exactly when the cap, the goal, the stack or a component forbids it, and then nothing changes; otherwise row, pool, trades and total all move by one lot, and the exchange is recorded behind those made before. |
| TradeSessionRun.Allocation.AllocateByRounds | rust/market-domain/src/trade_session.rs:307-316 | Fast and PerTrade: rounds of one lot for each row, until a round changes nothing; the state it ends in and the exchanges it makes, in order. |
| TradeSessionRun.Allocation.AllocateByRows | rust/market-domain/src/trade_session.rs:317-321 | Clear and Max: each row is filled before the next; the state it ends in and the exchanges it makes, in order. |
| TradeSessionRun.ClearingLot | rust/market-domain/src/trade_session.rs:202-206 | The loop that lowers the lot ends at the first divisor of the stack. |
| TradeSessionRun.CountSlugs | rust/market-domain/src/trade_session.rs:102-105 | How often each slug occurs among the candidates. |
| TradeSessionRun.FillPool | rust/market-domain/src/trade_session.rs:106-125 | The pool holds the confirmed copies of loose, single-candidate items and nothing else. |
| TradeSessionRun.JudgeAll | rust/market-domain/src/trade_session.rs:128-268 | Every candidate becomes either an eligible row or an exclusion with its reason, in order. |
| TradeSessionRun.JudgeCandidate | rust/market-domain/src/trade_session.rs:129-267 | The judging of one candidate as it runs, with the loop that lowers the lot in Clear. |
| TradeSessionRun.Emit | rust/market-domain/src/trade_session.rs:322-348 | Exactly the rows that took something are listed, in rank order. |
| TradeSessionPlan.JudgedTradable | rust/market-domain/src/trade_session.rs:137-206 | Whatever passes the checks can be traded: its lot moves at most six items and at most 3000 platinum, its price is within the limits; in Clear the lot is the largest up to the first choice that divides the stack. |
| TradeSessionPlan.LargestDivisor | rust/market-domain/src/trade_session.rs:202-206 | The lot found by counting down divides the stack, and no larger one up to the start does. |
| TradeSessionProofs.AddKeepsInvariant | rust/market-domain/src/trade_session.rs:279-306 | Every exchange keeps the whole invariant: rows within their stacks and in whole lots, totals equal to the sums over rows, cap respected, pool conserved and never negative, and the state still the outcome of a run each of whose exchanges was made while cap, goal, stack and pool allowed it. |
| TradeSessionProofs.RunKeepsInvariant | rust/market-domain/src/trade_session.rs:279-321 | So it holds after every run of exchanges that the four guards allow. |
| TradeSessionProofs.AllocationIsARun | rust/market-domain/src/trade_session.rs:307-321 | The exchanges that the rounds or the rows make, in the order in which they make them, were each allowed when made and lead to the state at the end. |
| TradeSessionProofs.AddConserves | rust/market-domain/src/trade_session.rs:286-300 | For each slug, the units all rows have taken and what is left in the pool make up the initial pool, also where a set and its loose parts compete. |
| TradeSessionProofs.RefusalIsPermanent | rust/market-domain/src/trade_session.rs:279-306 | A row once refused is refused in every later state. |
| TradeSessionProofs.ByRoundsExhausts | rust/market-domain/src/trade_session.rs:307-316 | When the rounds end no row can take another lot. |
| TradeSessionProofs.ByRowsExhausts | rust/market-domain/src/trade_session.rs:317-321 | When the rows are done none of them can take another lot, later rows notwithstanding. |
| TradeSessionProofs.BehindForever | rust/market-domain/src/trade_session.rs:307-316 | At any turn of any round, a row two trades behind another, or behind one ranked lower, never changes again. |
| TradeSessionPlan.PlanKeepsItsPromises | rust/market-domain/src/trade_session.rs:90-351 | Every plan: each row is a candidate of the request as it was judged, passes `valid_session_lot`, has quantity = trades x lot within its stack, keeps the per-exchange limits; total and trades are the sums over rows; the pool paid for exactly what the rows took; and of the exchanges made, in the allocator's own order, each was allowed and found the goal open, so that without the one made last the plan falls short of the goal. |
| TradeSessionPlan.PlanIsMaximal | rust/market-domain/src/trade_session.rs:279-321 | In all four modes: the cap is spent, or the goal is met, or no eligible row has a lot left that its stack and the pool could pay for. |
| TradeSessionPlan.RoundRobinIsFair | rust/market-domain/src/trade_session.rs:307-316 | In the plans of Fast and PerTrade a row that has fallen behind at some turn ends with what it had then. |
| TradeSessionOrder.RankingIsTotalPreorder | rust/market-domain/src/trade_session.rs:269-278 | Score, then key by UTF-16 units, is a total preorder, so the sort means what it says. |
| TradeSessionOrder.EligiblePermutes | rust/market-domain/src/trade_session.rs:128-268 | Rearranged candidates give the same eligible rows and the same exclusions, up to order. |
| TradeSessionOrder.PoolPermutes | rust/market-domain/src/trade_session.rs:102-126 | The pool does not depend on the order of the candidates. |
| TradeSessionOrder.PlanIsOrderIndependent | rust/market-domain/src/trade_session.rs:90-351 | With distinct keys, any permutation of the candidates gives the same rows, trades, total, goal and shortfall. |
| TradeSessionRanking.StartIsRanked | rust/market-domain/src/trade_session.rs:207-278 | The ranked rows: each has the figures of its mode - volume with credible bid, clearing within the cap, value within the cap, platinum of an exchange, hold advice taking two fifths off - and of any two the one with the larger first differing figure, or the smaller key, stands first. |
| TradeSessionRanking.ServedByRank | rust/market-domain/src/trade_session.rs:307-321 | The exchanges go in the order of the ranking: in Clear and Max each to the first row that can take a lot, in Fast and PerTrade each to the next row, going round, that can; and at the end none can. |
| TradeSessionRanking.FirstSaleIsBest | rust/market-domain/src/trade_session.rs:269-321 | In every mode the first sale goes to a row that leads every row that could be sold at the start. |
| TradeSessionRanking.PlanIsRanked | rust/market-domain/src/trade_session.rs:322-348 | The plan lists its rows in the order of the ranking. |
| TradeSessionRows.JudgedExactly | rust/market-domain/src/trade_session.rs:128-194 | A candidate becomes a row if and only if none of the five grounds applies to it, and is left out, by name, for the first that does. |
| TradeSessionRows.JudgedRowFor | rust/market-domain/src/trade_session.rs:128-266 | What a row holds: the whole copies, the price rounded up, the largest lot that moves at most six items and 3000 platinum and in Clear divides the stack, the bid, the needs of a set or of the item, and what the pool holds of each. |
| TradeSessionRows.EachJudgedOnce | rust/market-domain/src/trade_session.rs:128-268 | Rows and exclusions together are as many as the candidates. |
| TradeSessionRows.RowsAreJudged | rust/market-domain/src/trade_session.rs:128-268 | A row is in the list if and only if some candidate is judged to it. |
| TradeSessionRows.ExclusionsAreJudged | rust/market-domain/src/trade_session.rs:187-193 | An exclusion is in the list if and only if some candidate is judged to it. |
| TradeSessionOrder.EligibleConcat | rust/market-domain/src/trade_session.rs:128-268 | Rows and exclusions stand in the order of their candidates. |
| TradeSessionRows.PoolMeans | rust/market-domain/src/trade_session.rs:102-126 | The pool at the start: the copies of each loose, plain item that owns its slug alone, and nothing else. |
| TradeSessionRows.CapMeans | rust/market-domain/src/trade_session.rs:92-96 | The cap is the budget between 0 and 50, and 0 if that is no whole number. |
| TradeSessionRows.PlanFigures | rust/market-domain/src/trade_session.rs:97-349 | The goal is the target if that is positive, and the shortfall what is missing of it. |
| Sorting.SortSorted | rust/market-domain/src/trade_session.rs:269-278 | The sort yields an ordered list for every total preorder. |
| Sorting.SortedUnique | rust/market-domain/src/trade_session.rs:269-278 | Without ties there is only one ordered arrangement of the same elements. |
| Sorting.SortKeepsTies | rust/market-domain/src/trade_session.rs:269-278 | The sort is stable: elements that tie keep their order. |
| MessageCursor.ParseMessage | frontend/src/i18n/message.ts:16-84 | The recursive-descent parser with its shared cursor computes the parse the theorems below are about, errors included. |
| MessageCursor.Cursor.ReadNodes | frontend/src/i18n/message.ts:29-54 | The node loop, with its accumulated text, in any context: what it returns, where the cursor stops and how it fails. |
| MessageCursor.Cursor.Quote | frontend/src/i18n/message.ts:35-46 | An apostrophe doubles, opens a quoted run or stands for itself, depending on the next character and on being directly inside a plural. |
| MessageCursor.Cursor.ReadArgument | frontend/src/i18n/message.ts:56-79 | A braced argument: plain, number, plural or select. |
| MessageCursor.Cursor.ReadCases | frontend/src/i18n/message.ts:66-78 | The case loop, a later case of the same selector replacing the earlier. |
| MessageCursor.Cursor.ReadWord | frontend/src/i18n/message.ts:20-26 | A name after white space, up to a separator. |
| MessageGrammar.ParseIsGrammar | frontend/src/i18n/message.ts:16-84 | The parser reads exactly the sentences of a grammar - plain text, doubled, quoting and lone apostrophes, `#` in a plural, arguments with white space between their parts, cases - each to the nodes it means. |
| MessageErrors.ErrorIsLocated | frontend/src/i18n/message.ts:18-81 | A message that is refused is refused at a place whose text shows why: the name, the character, the brace or the quote that is missing or wrong there. |
| MessageMeaning.PutMeans | frontend/src/i18n/message.ts:66-73 | Assignment to the object of cases: a key it has keeps its place with the new case; a new one goes last, unless it is an array index, which stand first and ascending. |
| MessageMeaning.FormatSays | frontend/src/i18n/message.ts:100-118 | A message says what its nodes say, one after the other. |
| MessageMeaning.PluralSays | frontend/src/i18n/message.ts:105-115 | A plural says the case `=n` of its number, or else that of the number's category, or else `other`, with the formatted number for each `#` directly in it. |
| MessageMeaning.SelectSays | frontend/src/i18n/message.ts:106-111 | A select says the case of its text, or `other`. |
| MessageMeaning.ArgumentSays | frontend/src/i18n/message.ts:106-109 | An argument says its value, numbers formatted, and its name in braces if there is none. |
| MessageMeaning.TextSays | frontend/src/i18n/message.ts:104-104 | Literal text says itself. |
| MessageMeaning.RenderFilled | frontend/src/i18n/message.ts:104-105 | A `#` says the formatted number exactly as literal text in its place would. |
| MessageMeaning.NamesAreMentioned | frontend/src/i18n/message.ts:87-98 | The argument names are exactly those that stand somewhere in the message, in any case of any depth. |
| MessageProofs.ParseNodesNormal | frontend/src/i18n/message.ts:29-79 | What the parser returns is normal: no empty or adjacent literals, `#` only directly in a plural, an `other` case everywhere, cases in enumeration order. |
| MessageProofs.ParseWritten | frontend/src/i18n/message.ts:138-149 | In any context - top level, inside plural or select, in front of any rest - reading what the printer wrote gives the nodes back. |
| MessageProofs.MapTextMapsLiterals | frontend/src/i18n/message.ts:138-149 | For every message that parses and every text function, the output of `mapText` parses, to the nodes with the function applied to each literal and empty literals gone. |
| MessageProofs.PrintThenParse | frontend/src/i18n/message.ts:16-84 | Printing then parsing gives a node list back if and only if some source parses to it. |
| MessageProofs.MapTextKeepsArguments | frontend/src/i18n/message.ts:87-98 | `mapText` does not change the argument names a translation is checked by. |
| MessageProofs.FormatReadsArgumentNames | frontend/src/i18n/message.ts:100-118 | The formatted text depends on no argument outside `argumentNames`. |
| MessageProofs.ReprintKeepsMeaning | frontend/src/i18n/message.ts:100-149 | A message printed back by `mapText` with the identity formats to the same text for all arguments and locales. |
| Po.Parse | frontend/src/i18n/po.ts:29-56 | The loops of `parsePo` over blocks and lines compute the parse the theorems below are about. |
| PoProofs.UnquoteQuote | frontend/src/i18n/po.ts:20-27 | Unquoting a quoted field gives the text back, behind any field name. |
| PoProofs.HeaderKeepsLanguage | frontend/src/i18n/po.ts:48-64 | The header brings the language back if and only if it has no white space. |
| PoProofs.ParseFormat | frontend/src/i18n/po.ts:29-76 | What comes back from any printed file with one-line notes: each entry with its notes trimmed and, unless fuzzy, without the previous English; entries with neither key nor English read as a header; the error for an English without a key. |
| PoProofs.RoundTrip | frontend/src/i18n/po.ts:29-76 | A file comes back exactly as it was if and only if keys are filled, notes are tidy, the language has no white space and only fuzzy entries carry a previous English. |
| PoProofs.ParsedIsReadable | frontend/src/i18n/po.ts:29-56 | Every file that parses already has filled keys, tidy notes and such a language. |
| PoMeaning.ParseMeans | frontend/src/i18n/po.ts:29-56 | What a file that parses says: without the carriage returns at its line ends it falls into blocks, each block's lines that are not blank make up an entry, and those with a key, in order, with the language of the last header that names one, are the file. |
| PoMeaning.LinesMean | frontend/src/i18n/po.ts:33-47 | The entry of a block: each field is what the last line that opens it says and the lines that continue it, the notes trimmed and in order, a draft if some flag says so, the last previous English. |
| PoMeaning.LinesRefused | frontend/src/i18n/po.ts:46-46 | Lines are refused for the first that is no line of a PO file or continues nothing. |
| PoMeaning.BlocksRefused | frontend/src/i18n/po.ts:46-53 | A file is refused for its first block that has such a line, or an English text without a key. |
| PoMeaning.SplitBlocksMean | frontend/src/i18n/po.ts:32-32 | Blocks end at the first newline from which only white space leads to another, and begin behind the last such. |
| PoMeaning.LanguageMeans | frontend/src/i18n/po.ts:49-49 | The language is that of the first line that names one and nothing else. |
| PoMeaning.UnquoteMeans | frontend/src/i18n/po.ts:20-23 | A quoted field is what stands between the first quote behind its name and the last of the line. |
| PoMeaning.UnescapeMeans | frontend/src/i18n/po.ts:21-23 | A backslash and the character behind it are a newline, a tab or that character; a backslash at the end of a line is itself. |
| PoProofs.QuoteText | frontend/src/i18n/po.ts:25-27 | Quoting acts on each character alone: backslash, quote, newline and tab are escaped, all others stay. |
| PoMeaning.EntryPrinted | frontend/src/i18n/po.ts:67-74 | The printed lines of an entry: notes, flag and previous English of a draft, key, English, translation. |
| Catalog.SyncCatalog | frontend/src/i18n/catalog.ts:18-34 | The sync as it runs, with its map of old entries and its field updates. |
| CatalogMeaning.SyncMeans | frontend/src/i18n/catalog.ts:9-34 | A synced catalog has one entry for each key of the source, in its order, and no other, each with the source's text and notes: a key no old entry has arrives empty and is no draft; any other takes over the translation of the last old entry of its key, and is a draft, naming the English it came from, if that was one or its English has changed. |
| CatalogProofs.SyncReachesFixedPoint | frontend/src/i18n/catalog.ts:18-34 | A written sync is in step with its source - syncing what was read back prints the same bytes - if and only if no empty key has a text. |
| CatalogProofs.KeyedSyncIsFixed | frontend/src/i18n/catalog.ts:80-82 | With filled, distinct keys the out-of-step error cannot fire after a sync, whatever the file was before. |
| CatalogProofs.TracesAfter | frontend/src/i18n/catalog.ts:18-34 | After any sequence of English edits, syncs, writes and reads, an entry tells whether its English ever changed, keeps its translation, and names the English it was reviewed against. |
| CatalogProofs.DraftProvenance | frontend/src/i18n/catalog.ts:14-30 | The draft of a reviewed entry with a key, as every entry read from a file has one, names the English it was reviewed against, after all edits, if and only if the entry carries no previous English other than its own. |
| CatalogProofs.StaleProvenance | frontend/src/i18n/catalog.ts:26-30 | For every entry outside that condition, one edit that leaves a draft naming an English it was not reviewed against. |
| CatalogProofs.StaleFileMisleads | frontend/src/i18n/catalog.ts:18-34 | Every such entry without notes is read from some catalog file, and syncing that file after the edit misleads. |
| PoProofs.StaleEntryIsReadable | frontend/src/i18n/po.ts:29-56 | A block with a previous English and no fuzzy flag parses to an entry that is no draft and carries that English. |
| ScanPatterns.Soundness | rust/game-acquisition/src/scan.rs:205-246 | In every match of every pattern, all captures the analysis promises take part. |
| ScanPatterns.MatchWithout | rust/game-acquisition/src/scan.rs:205-246 | On a pattern without look-arounds, empty classes and empty alternations, a capture outside the promised set is absent from some match of some text. |
| ScanPatterns.GuaranteedIsExact | rust/game-acquisition/src/scan.rs:205-246 | There the analysis is exact: promised if and only if in every match. |
| ScanPatterns.RefusesTooMuch | rust/game-acquisition/src/scan.rs:202-203 | A pattern with an empty class whose capture always takes part and is not promised. |
| ScanPatterns.InstalledPatternsSupplyGroups | rust/game-acquisition/src/scan.rs:268-335 | Whatever a definitions file says, every match of an installed pattern has all the groups the scan needs. |
| ScanPatterns.RefusedExactlyWhenOptional | rust/game-acquisition/src/scan.rs:303-326 | A pattern that passes the earlier checks is installed if and only if no match lacks a required group. |
| ScanPatterns.InstalledExactly | rust/game-acquisition/src/scan.rs:268-352 | Each of the three fields has the pattern supplied for it if that passes every check, and otherwise its own built-in one. |
| ScanPatterns.RejectedFor | rust/game-acquisition/src/scan.rs:277-323 | A refused pattern is refused for the first check it fails. |
| ScanPatterns.CredentialMatch | rust/game-acquisition/src/scan.rs:127-127 | Every match of the built-in credential pattern is the name, 24 hexadecimal digits captured first, the other name, and six or more digits captured second. |
| ScanPatterns.BuildMatch | rust/game-acquisition/src/scan.rs:128-128 | Every match of the built-in build pattern is the name, digits and dots captured, a slash, letters and digits. |
| ScanPatterns.ContentMatch | rust/game-acquisition/src/scan.rs:129-129 | Every match of the built-in content pattern is the name and two to four capitals captured, where a word ends. |
| ScanSession.ScanRegion | rust/game-acquisition/src/scan.rs:721-747 | The loop over one region with its reused buffer: each haystack is the slice of the region from the carried tail to the bytes just read, up to the end or a read that gives nothing, and each is counted at once; it stops early only when the clock runs out or what was shown does not fit the budget. |
| ScanSession.Scan | rust/game-acquisition/src/scan.rs:686-748 | Over all regions: a scan that completes holds exactly the fold over all haystacks, in order, within the budget; one that is refused, the clock aside, had handed over more than fits. |
| ChunkScan.ReadChunk | rust/game-acquisition/src/scan.rs:732-745 | One read behind the carried tail, what the matcher sees, and the tail moved to the front. |
| ChunkScan.ShortPiecesSeen | rust/game-acquisition/src/scan.rs:686-747 | Every piece of at most overlap + 1 bytes lies in some haystack if and only if every read but the first and the last returns at least the overlap. |
| ChunkScan.ShortPieceMissed | rust/game-acquisition/src/scan.rs:743-746 | A shorter read in the middle always leaves such a piece out of every haystack. |
| ChunkScan.FullReadsFill | rust/game-acquisition/src/scan.rs:724-736 | Reads that return what was asked for satisfy the condition. |
| ChunkScan.FullReadsSeeTokens | rust/game-acquisition/src/scan.rs:686-736 | With the sizes the scan uses, such reads leave no piece of up to 97 bytes unseen. |
| ChunkScan.NothingShortIsLost | rust/game-acquisition/src/scan.rs:690-747 | The bytes of every short piece stand whole in one of the haystacks the loop handed over. |
| PatternBudget.PatternCounts.AggregateMatch | rust/game-acquisition/src/scan.rs:428-484 | Unless the clock runs out, a haystack is counted in full, within every limit, if all its matches fit the budget, and refused if they do not. |
| PatternBudget.PatternCounts.AggregateCreds | rust/game-acquisition/src/scan.rs:440-462 | The credential loop: a match without both groups is counted as unusable, any other under its lower-cased account id and nonce. |
| PatternBudget.PatternCounts.AggregateSingles | rust/game-acquisition/src/scan.rs:463-484 | The loops over build and content patterns. |
| PatternBudget.PatternCounts.ChargeMatch | rust/game-acquisition/src/scan.rs:529-538 | A match is charged before it is used. |
| PatternBudget.PatternCounts.ChargeValue | rust/game-acquisition/src/scan.rs:543-559 | A captured value over the length limit is refused unspent, one over the byte limit after it is added. |
| PatternBudget.PrefixFits | rust/game-acquisition/src/scan.rs:511-569 | The budget is monotone: what fits as a whole fits up to any match. |
| PatternBudget.CountedIsExact | rust/game-acquisition/src/scan.rs:456-461 | Each count grows by exactly the number of times its key was matched. |
| ScanCounts.ScanCountsExactly | rust/game-acquisition/src/scan.rs:428-484 | What a completed scan holds, in terms of the captured groups: under each lower-cased account id and nonce the number of matches in all haystacks with these as first and second group, under each build and content value the number of matches that show it, and the number of credential matches that lack a group. |
| ScanCounts.ScanFitsExactly | rust/game-acquisition/src/scan.rs:511-569 | A scan completes, the clock aside, if and only if all its matches, captured lengths, bytes and distinct values taken together keep the limits. |
| PatternBudget.NoneStaysNone | rust/game-acquisition/src/scan.rs:511-569 | What does not fit the budget does not fit with more haystacks behind it, so stopping loses no scan that would have fitted. |
| Policy.PolicyStore.AcceptPolicy | rust/wfm-client/src/policy.rs:170-191 | `accept`: verified, compared with the current policy, written, activated, remembered - in this order, and how each step may fail or the process die in between. |
| Policy.PolicyStore.Activate | rust/wfm-client/src/policy.rs:162-169 | The governor takes the orders for this component or refuses them, and then nothing changes. |
| Policy.Disk.AtomicWrite | rust/wfm-client/src/policy.rs:99-121 | The temporary file is written byte by byte and renamed; wherever it fails or dies, after any number of bytes, the file is the old one or all of the new one, and a partial text stays in the temporary file. |
| Policy.Load | rust/wfm-client/src/policy.rs:135-161 | A new process: no file, an unreadable file, a file that fails verification, or one that is activated before the store exists. |
| Policy.EveryRunIsSafe | rust/wfm-client/src/policy.rs:134-191 | Over every run of accepts, failed writes, failed activations, crashes and restarts: activated revisions never decrease, one revision has one payload, and the file on disk is never older than the last activation. |
| Policy.ReplayRefused | rust/wfm-client/src/policy.rs:173-183 | After any such run, a policy older than anything ever activated, or of the same revision with another payload, is refused and changes nothing. |
| Policy.NothingWithoutTheKey | rust/wfm-client/src/policy.rs:84-191 | Over every run in which nothing signed with the current key arrives, the file on disk stays and nothing is activated but what it holds, whatever retired keys have signed. |
| Policy.AcceptedSurvivesRestart | rust/wfm-client/src/policy.rs:135-191 | A newer policy is activated, and a restart brings it back - also after its key has been retired. |
| PolicyMeaning.VerifyMeans | rust/wfm-client/src/policy.rs:46-83 | An envelope is verified for a key exactly if that key signed the bytes of a document within all the bounds. |
| PolicyMeaning.ApplyMeans | rust/wfm-client/src/policy.rs:162-169 | The governor takes a document exactly if that is newer or in force already, and then it has its revision, its reason, and the desktop's restrictions in a desktop process and the scraper's in a scraper. |
| PolicyMeaning.AcceptMeans | rust/wfm-client/src/policy.rs:170-191 | What accepting returns and leaves: refused if not signed by the current key, older, or of the same revision with another payload; nothing to do if it is the current one; otherwise written and, if the governor may follow, in force. |
| PolicyMeaning.InterruptedMeans | rust/wfm-client/src/policy.rs:184-190 | How far a newer policy gets when a write fails or the process dies: what is on disk, what was activated, whether the process lives. |
| PolicyMeaning.StartMeans | rust/wfm-client/src/policy.rs:135-161 | What starting returns and leaves: nothing without a file; the document in force if a trusted key signed it and the governor may follow; otherwise refused. |
| PolicyMeaning.FailedStart | rust/wfm-client/src/policy.rs:152-159 | An unreadable file stops the start; a process that dies once the policy is active has activated it. |
| PolicyMeaning.GovernedAfter | rust/wfm-client/src/policy.rs:134-191 | After every run of accepts, failures, crashes and restarts a running store's governor has the orders of the store's policy for its own component, unless it was moved ahead. |
| PolicyMeaning.AcceptedIsInForce | rust/wfm-client/src/policy.rs:135-191 | A newer policy that is accepted is in force for the store's component, and after a restart for the component that starts. |
| RequestGate.Lane.ChargeOne | rust/tennoworth-collectors/src/gate.rs:31-41 | One charge under the lane's lock: the window renewed when it has run out, and one request admitted if it is not full. |
| RequestGate.Gate.Admit | rust/tennoworth-collectors/src/gate.rs:98-119 | One request: a busy or spent lane refuses without taking a slot, a charge is spent even when no slot is free, and the other lane is untouched. |
| RequestGate.Gate.Finish | rust/tennoworth-collectors/src/gate.rs:113-118 | A request that ends gives its slot back. |
| RequestGate.Gate.LaneOf | rust/tennoworth-collectors/src/gate.rs:81-87 | GET and HEAD requests are served by the reading lane, all others by the writing one. |
| RequestGate.RateBound | rust/tennoworth-collectors/src/gate.rs:29-42 | Over every run with a clock that does not go back, any closed interval of k windows admits at most (k + 1) allowances. |
| RequestGate.RateBoundIsReached | rust/tennoworth-collectors/src/gate.rs:16-18 | No smaller bound holds: for every k some run admits exactly that many. |
| RequestGate.RefusedOnlyWhenFull | rust/tennoworth-collectors/src/gate.rs:31-41 | A refused request met a window less than a second old that had admitted its whole allowance since it began. |
| RequestGate.LanesAreIndependent | rust/tennoworth-collectors/src/gate.rs:81-87 | However reads and writes interleave, each lane ends as if it had served its own requests alone. |
| Redact.RunRedactAfter | rust/game-acquisition/src/error.rs:69-84 | The loop that grows `out` and uses up `rest` computes the pass the theorems below are about. |
| Redact.RunRedactSessionCreds | rust/game-acquisition/src/error.rs:57-64 | The four passes, one on the result of the other. |
| Redact.PassCleans | rust/game-acquisition/src/error.rs:69-84 | After its pass every occurrence of the marker is followed by the placeholder and then by an end of the value or of the text. |
| Redact.PassKeepsClean | rust/game-acquisition/src/error.rs:57-84 | A pass for one marker does not undo what a pass for another has done. |
| Redact.RedactionIsComplete | rust/game-acquisition/src/error.rs:42-64 | After the four passes no value of either credential is left, in a query string or in quoted JSON. |
| Redact.NothingIsTold | rust/game-acquisition/src/error.rs:30-64 | Wherever `accountId=`, `nonce=`, `"accountId":"` or `"nonce":"` stands in the result, the placeholder follows, and then the end of the text or one of the characters that end such a value. |
| Redact.EndsMean | rust/game-acquisition/src/error.rs:40-61 | The eight characters that end a value in a query string, and the one that ends a quoted value. |
| Redact.UnchangedExactlyWhenClean | rust/game-acquisition/src/error.rs:52-56 | A text is left alone if and only if it shows no value, so prose that only mentions a name is. |
| Redact.RedactionIsIdempotent | rust/game-acquisition/src/error.rs:57-64 | Redacting twice is redacting once. |
| Redact.ReplacesTheValue | rust/game-acquisition/src/error.rs:66-84 | A pass replaces the whole value behind the first marker and nothing else, keeps the terminator, and goes on behind it. |
| Buyers.CompareBuyers | frontend/src/domain/buyer-alternatives.ts:7-41 | The four refusals in their order; otherwise the rows of the fill, covered and uncovered units that add up to the quantity, and the sums and the gap computed from them. |
| Buyers.FilterOrders | frontend/src/domain/buyer-alternatives.ts:20-27 | The filter with its set of users seen. |
| Buyers.IsAcceptable | frontend/src/domain/buyer-alternatives.ts:22-25 | The checks on one order, whole lots included. |
| Buyers.FillOrders | frontend/src/domain/buyer-alternatives.ts:29-36 | The fill as it runs, with its divisions and its shrinking remainder. |
| Buyers.KeepsFirstOfUser | frontend/src/domain/buyer-alternatives.ts:20-27 | Eligible is exactly each user's first acceptable order, whatever unacceptable ones came before it. |
| Buyers.EligibleByPrice | frontend/src/domain/buyer-alternatives.ts:28 | Eligible orders come in the order of their price for each unit. |
| BuyersMeaning.ComparisonMeans | frontend/src/domain/buyer-alternatives.ts:20-41 | What a comparison says: each user's first order that buys anything, best price for each unit first and ids on a tie, takes all its whole lots that fit into what the orders before it leave; the rows are those that took something, each worth its lots. |
| BuyersMeaning.RefusalMeans | frontend/src/domain/buyer-alternatives.ts:7-19 | A comparison is refused for the first thing that speaks against it, and only then: the input, the quote, own orders in it, its age. |
| BuyersMeaning.AcceptableMeans | frontend/src/domain/buyer-alternatives.ts:22-25 | An order counts if a user who is there buys a positive whole number of units in whole lots of one to six at a positive price. |
| BuyersMeaning.OffersMean | frontend/src/domain/buyer-alternatives.ts:8-22 | The orders compared are those of the quote's book. |
| Buyers.ComparisonIsMaximal | frontend/src/domain/buyer-alternatives.ts:29-36 | The rows are whole lots within their orders and the quantity, and no order could take one more lot of what is left. |
| Buyers.ComparisonIsBestForOneLot | frontend/src/domain/buyer-alternatives.ts:20-38 | When all eligible orders of a book share a lot size, no other allocation of whole lots brings in more than the comparison. |
| Buyers.ComparisonIsNearlyBest | frontend/src/domain/buyer-alternatives.ts:20-38 | With any lot sizes, no allocation brings in more than the comparison of the book and five units at the best price. |
| Buyers.MixedLotsCanLose | frontend/src/domain/buyer-alternatives.ts:20-38 | A book of two acceptable orders, lots of five and of six, whose comparison brings in 50 where 54 were possible. |
| WholeLots.FluidBounds | frontend/src/domain/buyer-alternatives.ts:28-36 | Taking the best prices first with lots ignored bounds every allocation. |
| WholeLots.GreedyNearBound | frontend/src/domain/buyer-alternatives.ts:31-35 | The fill misses that bound by less than one lot. |
| WholeLots.DivisionRoundsDown | frontend/src/domain/buyer-alternatives.ts:32 | Dividing, flooring and multiplying back gives the largest whole number of lots. |
| Mastery.FindMasteryBand | rust/market-domain/src/scoring.rs:153-183 | The loop that looks only at its running sum computes the band the theorems below are about, on every curve on which it ends. |
| Mastery.WidenAdds | rust/market-domain/src/scoring.rs:167-180 | A turn adds exactly the entry it moves over, so the running sum is the sum of the band. |
| Mastery.TurnTakesLarger | rust/market-domain/src/scoring.rs:167-180 | A turn takes in the larger of the entries next to the band, the left one on a tie, and the only one if there is only one. |
| Mastery.BandCovers | rust/market-domain/src/scoring.rs:153-183 | There is a band if and only if the total is positive; it holds the first peak and at least three fifths of the total. |
| Mastery.BandIsTight | rust/market-domain/src/scoring.rs:166-180 | A band of more than the peak is where the loop stands after its last turn, and the band it stood at one turn before falls short. |
| Mastery.HeaviestOfItsLength | rust/market-domain/src/scoring.rs:166-180 | A band none of whose entries is below any outside outweighs every interval that is not longer. |
| Mastery.BandIsShortest | rust/market-domain/src/scoring.rs:153-183 | On a non-negative curve that rises to its first peak and falls behind it, no shorter interval holds three fifths. |
| Mastery.EndsExactly | rust/market-domain/src/scoring.rs:153-183 | On every curve the loop ends if and only if no unfinished band on the way from the first peak has nothing to move over: -1 or less on the right at the left edge, or less than -1 on the left at the right edge. |
| Mastery.LostForever | rust/market-domain/src/scoring.rs:166-180 | Once the loop stands where no turn adds an entry, it stands so after every further turn and never ends. |
| Mastery.ValidCurvesEnd | rust/market-domain/src/scoring.rs:153-183 | Entries above -1, among them all that `valid_usage` lets through, make it end. |
| Mastery.NegativeEntryNeverEnds | rust/market-domain/src/scoring.rs:153-183 | A curve with one negative entry and a positive total on which it never ends. |
| Mastery.NegativeEntryMayEnd | rust/market-domain/src/scoring.rs:153-183 | A curve with an entry of -5 on which it ends. |
| Mastery.ParentIndex | rust/market-domain/src/scoring.rs:132-151 | A part is in the index if and only if some set lists it, under its parent if it has only one and marked ambiguous if it has several. |
| Inventory.FlattenInventory | rust/market-domain/src/inventory.rs:76-117 | The two loops over categories and entries compute the flat list, or stop at the first bad count. |
| Inventory.FlattenRefuses | rust/market-domain/src/inventory.rs:76-117 | An inventory is refused if and only if it is no object or some entry with a path in a known category has a count that is no non-negative safe integer. |
| InventoryMeaning.FlattenMeans | rust/market-domain/src/inventory.rs:76-117 | The flat list, category by category: the entries with a path, in order, each with its path, its count - one if none is given - and its experience; refused for an entry with a path and a count that is no whole number in range. |
| InventoryMeaning.UpgradeMeans | rust/market-domain/src/inventory.rs:119-140 | The level of an upgrade is the `lvl` of its fingerprint, 0 if there is none, and its path the text in `ItemType`. |
| InventoryRows.KeptLevels | rust/market-domain/src/inventory.rs:119-145 | The loop over upgrades with its map. |
| InventoryRows.KeptLevelIsHighest | rust/market-domain/src/inventory.rs:119-145 | The level kept for a path is the highest among its upgrades, and is absent if none is above -1. |
| InventoryRows.NormalizeInventory | rust/market-domain/src/inventory.rs:259-322 | The three refusals in their order; otherwise one row for each key in order of first appearance, whose count, leveled count and kept level are the sum, the sum over entries with experience and the maximum over exactly the entries of its key, and the unresolved entries counted by category. |
| InventoryRows.Aggregate | rust/market-domain/src/inventory.rs:275-320 | The aggregation loop: its `positions` holds exactly the keys that have a row, each with the index of that row, and the loop fails if and only if some key's total is no safe integer. |
| InventoryRows.AddToRow | rust/market-domain/src/inventory.rs:308-319 | What one entry does to its row. |
| InventoryRows.TallyRow | rust/market-domain/src/inventory.rs:288-319 | An entry changes the row of its key and no other, whether the row is new or old. |
| InventoryRows.FlatCountAddsUp | rust/market-domain/src/inventory.rs:270-287 | `flat_count` is the number of resolved entries and all unresolved counts together. |
| InventoryRows.CopiesAreKept | rust/market-domain/src/inventory.rs:288-311 | The counts of all rows together are the copies in all resolved entries, and no key has two rows. |
| InventoryRows.KeyedEntriesHaveRows | rust/market-domain/src/inventory.rs:277-304 | A key has a row if and only if some entry resolves to it. |
| InventoryRows.KeysIdentify | rust/market-domain/src/inventory.rs:288 | Two identities share a row if and only if slug and refinement agree. |
| InventoryMeaning.NormalizedMeans | rust/market-domain/src/inventory.rs:259-322 | The rows: one for each identity, in the order of their first entries and named after them, each with the copies of all its entries, of those with experience, and the highest level kept for one of their paths; and by category the number of entries that resolve to nothing. |

## Left out

- Rounding and not-a-number in 64-bit floats: prices, scores and curves are reals, and two unit prices that differ
  only below the precision of a float count as different here. Counts are exact in the program as well.
- The clearing price is an abstract function of the market fields; reason strings, the exclusion texts and
  `validate_session_request` carry no logic the plan depends on.
- Lower-casing in the check for "riven" is modelled for ASCII letters.
- Lone surrogates and the UTF-16 positions of characters outside the basic plane: texts are characters here.
- JavaScript objects with special keys such as `__proto__`; tables are finite and have ordinary keys.
- The text of error messages beyond their kind and, for the message parser, the position.
- `Intl` plural rules, number formatting, `String` and `Number` conversions: parameters of the formatter.
- TradeSessionOrder.PlanIsOrderIndependent: with equal keys and equal scores the order of the candidates decides, as the sort is stable.
- Catalog notes that span several lines: the English modules keep each on one line, and the catalog theorems ask for it.
- `tagsMatch`, `visibleLength`, coverage counters and `richParts`: single checks without state.
- Policy.EveryRunIsSafe: a rename that a power failure reverts before the directory is synced, and deleting the file by hand, are outside the protocol.
- The process-wide pause that a failed policy write requests; the governor moves only forward here.
- Signatures are ideal: one is valid for exactly the key and bytes it was made with.
- The regex engine and its syntax parser: matches are derivations over the syntax tree, and the number of groups is given.
- Finding the process, reading its memory map, and the Windows scan, which repeats the same loop.
- PatternBudget.PatternCounts.ChargeTime: the clock may run out at any check, so nothing is said about when it does.
- The values an accumulator holds after a refused haystack: the scan stops there and returns no result.
- RequestGate.Gate.Admit: the five-second timeout of an admitted request only ends it, as any other end does.
- `resolve_path`, `path_name_guess` and `slug_guess` are one abstract function from paths to identities.
- WholeLots.GreedyNearBound: finding the best allocation for mixed lots is not what the program does, so only the distance from it is bounded.
- Choosing the most frequent credential (`pick_dominant`) and the shape checks of what it chooses: single checks on the counts.
- The exact spacing of what `mapText` prints: its output is described by what it parses to.
- Publisher routes, the user interface, release checks, planners and transport: input/output or single-branch rules.
