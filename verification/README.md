# Verification of a desktop database client's agent services

A Dafny model of the parts of the client that have to be right by themselves: the
hash-chained audit log, the scanners behind the duplicate-execution key, the two text
parsers, the wrangler.toml editor, cursor pagination, thread and memory stores, the
approval protocol and the recovery of model replies. `dafny verify dfyconfig.toml`
verifies the whole project.

Objects whose methods update their fields are classes (`AuditStore`,
`AssistantMessageExtractor`, `GoStyleParser`, `ThreadStore`, the approval `Store` and
`Service`, `ToolCallingModel`); loops are methods with invariants, each proved against a
function of the inputs or of the old state; the theorems are lemmas about those functions.

## Modules

- `Wrappers`, `Text`, `LetterCase`, `Decimal`, `Reversal`: options, Go's string helpers on
  sequences of runes, letter case, integers in decimal, reversal in place.
- `AuditChain`, `AuditRows`, `AuditTamper`, `AuditList`: the audit log. A line is blank,
  malformed, too long for the scanner, or a row of fields; the SHA-256 digest of an object,
  the size of its row and the scanner's buffer are parameters about which nothing is assumed,
  so that tamper evidence exhibits a collision.
- `StatementLexer`, `StatementKey`, `StatementLiterals`: the two scanners of the statement
  key, and where literals and bracketed names end.
- `StatementGaps`, `StatementMeaning`, `StatementCase`, `ExecuteSignature`: when the two
  scanners see the same gaps, what the key means, that the scanners commute, and the
  signature built from the key.
- `MessageStream`, `StreamDecoding`: the streaming extractor of one JSON string.
- `GoMap`, `GoMapPrinting`: the parser of Go's printed maps, and a printer for it.
- `TomlText`, `Wrangler`, `WranglerUpsert`, `WranglerRepeat`, `WranglerLookups`: the
  wrangler.toml editor.
- `EntityNames`, `EntityPages`: cached entity names and their pages.
- `ThreadLog`, `ThreadRuns`, `RecentEvents`: event compaction and whole runs of turns.
- `MemoryPattern`, `MemoryEviction`, `MemoryMerge`, `MemoryMarkdown`, `MemoryFields`,
  `MemoryDocument`: eviction, merging and the memory document.
- `ApprovalStore`, `ApprovalProtocol`, `ApprovalDecisions`, `ApprovalRuns`,
  `ApprovalCheckpoints`: approvals.
- `RecoveryGuards`, `GuardOutcomes`, `Recovery`: the guards on model output and the recovery
  stages.
- `RowCap`: capping rows by encoded size.

## What does not hold

Where the code falls short of what one would expect of it, the exact condition is proved.

- Appending to the audit log does not check the scanner's line limit: a longer row is
  stored, after which the log neither verifies nor lists (`AuditChain.AppendKeepsLog`,
  `AuditList.AppendKeepsListable`). Legacy rows are not covered by the chain
  (`AuditTamper.LegacyRowsAreNotCovered`).
- The statement key is not the statement up to unquoted white space and keyword case. The
  first scanner does not know bracketed names, the second does. A statement shares its key
  with the statements of its meaning and with no other if and only if both scanners see the
  same gaps in it (`StatementMeaning.KeyIsMeaningIff`), which they do when its bracketed
  names hold no separator and no quote (`StatementMeaning.PlainKeyIsMeaning`); otherwise one
  exchanged separator gives a statement with the wrong key (`StatementMeaning.PartnerIsWrong`).
  `[a  b]` and `[a b]` share a key (`StatementMeaning.GapsInName`), so do `[a'b]'x y'` and
  `[a'b]'x  y'`, which have different literals (`StatementMeaning.QuoteInNameMerges`), while
  `[it's]  b` and `[it's] b` have two (`StatementMeaning.QuoteInNameSplits`).
- A separator inside an id makes executions on two targets share a signature
  (`ExecuteSignature.SeparatorInIdCollides`). The signature tells the targets of one statement
  apart if and only if neither id splits at a separator into trimmed parts
  (`ExecuteSignature.TargetsToldApartIff`), and all executions from one whose ids, token and
  statement key hold no separator (`ExecuteSignature.SignatureTellsApart`).
- The streaming extractor decodes each half of a surrogate pair alone
  (`StreamDecoding.StreamIsMessageIff`).
- Text after the closing bracket of a printed Go map is ignored, and an empty array in it
  reaches the database as null: the JSON is the map's value if and only if no array in it is
  empty (`GoMapPrinting.PrintedMapNormalizes`, `GoMapPrinting.EmptyPipelineIsNull`). A text
  in it reaches the database as that text if and only if it is none of five words and reads
  as no number (`GoMapPrinting.TokenReads`); one like NaN makes the statement fail
  (`GoMapPrinting.NanIsRefused`).
- Upserting the same entry twice is upserting it once, whatever the file, if and only if the
  entry has a trimmed database id, or a trimmed binding and neither a database id nor a
  previous one (`WranglerRepeat.UpsertIdempotentIff`).
- A persist loses an event appended under an id that was loaded
  (`ThreadRuns.PersistConserves`).
- A replace hint that matches an earlier pattern leaves two memory patterns with one key
  (`MemoryMerge.DistinctKeysIff`).
- A checkpoint is left behind when a resumed turn ends by showing a repaired call for
  approval (`ApprovalCheckpoints.OwnedIff`). Approving an approval of a turn a second time
  runs the turn's calls a second time if and only if the first resumed turn failed
  (`ApprovalCheckpoints.SecondApproval`, `ApprovalCheckpoints.FailedResumeRunsAgain`).
- The web-search guard does not look at the replies to the other guards' requests
  (`Recovery.SecondWebSearchIff`).
- A single row over the byte limit is kept and reported as truncated though nothing was
  dropped (`RowCap.DroppedIff`).

## Model

| member | source | states |
|---|---|---|
| `AuditChain.VerifyAuditData` | internal/agentaudit/hash_chain.go:128-204 | passes exactly when the records are a legacy prefix followed by rows sealed for their own positions and linked from the genesis hash; otherwise FirstBrokenPosition is one more than the longest prefix that verifies, and reason and hashes are the complaint about that record: by the kind of line, or the first check of a chained row that fails |
| `AuditChain.ScanAuditChainForAppend` | internal/agentaudit/hash_chain.go:100-126 | succeeds exactly on logs that verify, and then the hash it hands on is the one the next row has to link to |
| `AuditChain.CheckChainedIff` | internal/agentaudit/hash_chain.go:144-193 | a chained row is accepted exactly when it is sealed for that position over that previous hash, and a rejection carries two hashes that differ or none |
| `AuditChain.PrefixIsAuditLog` | internal/agentaudit/hash_chain.go:137-204 | verification is prefix-closed |
| `AuditChain.ExtendAuditLog` | internal/agentaudit/hash_chain.go:137-204 | a log with one more record verifies exactly when the log does and the record extends it, by the kind of the record and whether the chain has started |
| `AuditChain.ChainInputInjective` | internal/agentaudit/hash_chain.go:254-265 | the input of a chain hash determines position, previous hash and payload hash |
| `AuditChain.StrippedIsPayload` | internal/agentaudit/hash_chain.go:231-252 | whatever chain fields an entry carries, its stored row with the chain fields stripped has the fields of the entry without them |
| `AuditChain.ReadBack` | internal/agentaudit/hash_chain.go:353-387 | the chain fields written with an entry are read back from its stored row |
| `AuditChain.SealedRowVerifies` | internal/agentaudit/hash_chain.go:73-98 | a sealed entry gives a row that verifies at its position: the payload hash taken before sealing is the hash of the stored row stripped |
| `AuditChain.AuditStore.constructor` | internal/agentaudit/audit_store.go:28-30 | a store over the lines of a file |
| `AuditChain.AuditStore.Append` | internal/agentaudit/audit_store.go:32-74 | a log that verifies gets one sealed row at its end, any other is left as it is and the append refused, and nothing stored before changes |
| `AuditChain.AppendKeepsLog` | internal/agentaudit/audit_store.go:32-74 | after an append the log verifies if and only if the stored row stays within the scanner's line limit, which Append does not check; one more row, the same legacy rows, and the entry's payload in the new row |
| `AuditChain.OversizedAppendBreaksLog` | internal/agentaudit/audit_store.go:32-74 | under any buffer size, appending an entry whose statement alone fills the scanner's buffer turns a log that verifies into one that does not |
| `AuditChain.RunOfAppends` | internal/agentaudit/audit_store.go:32-74 | after any sequence of appends whose rows stay within the limit the log verifies, with one sealed row more for each entry, in order, and the legacy count unchanged |
| `AuditRows.PlainRowsVerify` | internal/agentaudit/hash_chain.go:215-229 | a log of rows that have none of the five chain fields verifies, all of them counted as legacy |
| `AuditRows.PartialRowBreaks` | internal/agentaudit/hash_chain.go:155-156 | a row with some of the five fields and not all breaks any log, as incomplete |
| `AuditRows.PlainRowBreaksIff` | internal/agentaudit/hash_chain.go:147-153 | a row without the five fields is accepted exactly when no row before it has them, and otherwise refused as legacy after the chain |
| `AuditRows.OtherLineBreaks` | internal/agentaudit/hash_chain.go:140-143 | a line that is no JSON object or too long breaks any log, with that reason |
| `AuditRows.ChainedRowBreaks` | internal/agentaudit/hash_chain.go:160-193 | which check a row with all five fields fails first, with the two hashes reported, in terms of what its fields hold; one that fails none is accepted |
| `AuditRows.StopsAt` | internal/agentaudit/hash_chain.go:128-213 | the verifier stops at the first line that does not extend the log before it, whatever follows, with that complaint and the counts of the rows before |
| `AuditRows.ValueForms` | internal/agentaudit/hash_chain.go:353-387 | white space around a text is ignored, a number stands for its digits, null for an absent field, and nothing but numbers and texts are integers |
| `AuditRows.CallerStored` | internal/agentaudit/types.go:38-42 | who called which tool is stored under these names |
| `AuditRows.TargetStored` | internal/agentaudit/types.go:43-47 | statement and target are stored under these names, omitted when empty |
| `AuditRows.OutcomeStored` | internal/agentaudit/types.go:48-57 | the outcome is stored under these names, message and risk only when there are any |
| `AuditRows.ChainStored` | internal/agentaudit/audit_store.go:32-74 | the row an append stores holds its position, the hash of the row before, the version and the hash of the payload |
| `AuditRows.ChainStarts` | internal/agentaudit/hash_chain.go:137 | a chain that starts after legacy rows or none links to 64 zeros |
| `AuditRows.DefaultsFilled` | internal/agentaudit/audit_store.go:36-41 | a blank id or time is filled in before the entry is sealed, everything else stays |
| `AuditTamper.PositionIsFixed` | internal/agentaudit/hash_chain.go:137-193 | a chained row two verifying logs share stands at the same position in both; no property of the hash is used |
| `AuditTamper.DeletionDetected` | internal/agentaudit/hash_chain.go:128-204 | deleting a record keeps a log verifying exactly when it is the last one or the log is all legacy |
| `AuditTamper.InsertionDetected` | internal/agentaudit/hash_chain.go:128-204 | inserting before the end keeps a log verifying exactly when all of it and the new line are legacy |
| `AuditTamper.SwapDetected` | internal/agentaudit/hash_chain.go:128-204 | exchanging two records keeps a log verifying exactly when both are legacy |
| `AuditTamper.CompareFindsEvidence` | internal/agentaudit/hash_chain.go:239-265 | from two chained rows with the same chain hash, walking back finds equal chains or exhibits two inputs with one hash or a preimage of the genesis value |
| `AuditTamper.TamperEvidence` | internal/agentaudit/hash_chain.go:128-204 | two verifying logs that end in the same chain hash have the same length, legacy count and chained payloads, or a hash collision or genesis preimage is at hand |
| `AuditTamper.LegacyRowsAreNotCovered` | internal/agentaudit/hash_chain.go:215-229 | any legacy row may be replaced by any other and the log still verifies |
| `Reversal.ReverseInPlace` | internal/agentaudit/audit_store.go:143-147 | the array is reversed in place |
| `AuditList.List` | internal/agentaudit/audit_store.go:76-115 | the matching entries, newest first and cut to the limit, of all lines that json.Unmarshal accepts, the strictly malformed ones included; an error, and no entries, when a line exceeds the scanner's limit |
| `AuditList.NewestFirst` | internal/agentaudit/audit_store.go:76-115 | a line appended comes first when it matches and only pushes out what is over the limit |
| `AuditList.LimitCutsListing` | internal/agentaudit/audit_store.go:110-114 | listing with a limit is the beginning of listing without one |
| `AuditList.ListedIff` | internal/agentaudit/audit_store.go:76-115 | without a limit an entry is listed if and only if some line decodes to it and it matches |
| `AuditList.MatchesByKeyword` | internal/agentaudit/audit_store.go:117-141 | an entry of the access key and protocol asked for matches when the keyword occurs in any of ten of its texts |
| `AuditList.MatchesOnly` | internal/agentaudit/audit_store.go:117-127 | only entries of that access key and protocol match, and without a keyword all of them |
| `AuditList.AppendKeepsListable` | internal/agentaudit/audit_store.go:32-115 | after an append to a verifying log the entries can be listed if and only if the stored row stays within the line limit: one oversized row hides every entry |
| `StatementLexer.CollapseWhitespace` | internal/aichat/runtime_eino.go:961-1062 | the scanner computes the statement with every white-space run outside literals squeezed to one space and every literal copied |
| `StatementLexer.PiecesCover` | internal/aichat/runtime_eino.go:961-1062 | the lexical pieces of a text, literals, gaps and single characters, concatenate to the text |
| `StatementLexer.CollapseEqualIffSameShape` | internal/aichat/runtime_eino.go:961-1062 | two statements collapse to the same text if and only if they have the same literals character for character and the same other characters with gaps in the same places |
| `StatementLexer.CollapseIdempotent` | internal/aichat/runtime_eino.go:961-1062 | a collapsed text is trimmed and a fixpoint of collapsing |
| `StatementKey.Canonicalize` | internal/aichat/runtime_eino.go:1074-1202 | the scanner with its bracket and literal flags computes the statement with whole unquoted keywords in lower case and nothing else changed |
| `StatementKey.CanonicalTokens` | internal/aichat/runtime_eino.go:1074-1202 | canonical text has the length and, but for letter case, the characters of the original, and reads as the same tokens with keywords folded; quoted, backticked and bracketed regions are kept |
| `StatementKey.CanonicalEqualIff` | internal/aichat/runtime_eino.go:1074-1202 | two texts have one canonical form if and only if their tokens agree up to the case of whole unquoted keywords |
| `StatementKey.CanonicalIdempotent` | internal/aichat/runtime_eino.go:1074-1202 | canonical text is a fixpoint |
| `StatementKey.CaseKeepsCollapsed` | internal/aichat/runtime_eino.go:934-944 | changing letter case only keeps a collapsed text collapsed, so the second scanner does not undo the first |
| `StatementKey.NormalizeSignature` | internal/aichat/runtime_eino.go:934-944 | collapsing, then canonicalising, blank results staying blank |
| `StatementKey.SameKeyIff` | internal/aichat/runtime_eino.go:934-944 | two statements share a key if and only if, with gaps squeezed, they have the same tokens up to keyword case |
| `StatementKey.SameShapeSameKey` | internal/aichat/runtime_eino.go:934-944 | statements that differ in white space outside literals share a key |
| `StatementKey.NormalizeIdempotent` | internal/aichat/runtime_eino.go:934-944 | the key is a fixpoint of both scanners and of the normaliser |
| `StatementLiterals.LiteralRead` | internal/aichat/runtime_eino.go:961-1062 | a literal of characters, escapes and doubled quotes ends with the first quote that is not doubled; a backtick is never doubled |
| `StatementLiterals.UnclosedLiteral` | internal/aichat/runtime_eino.go:961-1062 | a literal that is not closed takes in the rest of the text |
| `StatementLiterals.BracketRead` | internal/aichat/runtime_eino.go:1140-1152 | any name with its closing brackets doubled can stand in brackets and ends there |
| `StatementLiterals.Kinds` | internal/aichat/runtime_eino.go:961-1202 | what a piece or token is by its first character: a gap, a literal, a bracketed region, a word or any other character |
| `StatementLiterals.CharacterClasses` | internal/aichat/runtime_eino.go:961-1202 | the three quotes, the six separators and the characters of a word |
| `LetterCase.LowerCharIs` | internal/aichat/runtime_eino.go:1181-1183 | a capital letter becomes the letter at its place in the alphabet and nothing else changes |
| `StatementCase.WordWritten` | internal/aichat/runtime_eino.go:1173-1188 | a word that is a keyword in any mixture of cases is written as the keyword, every other word as it is |
| `StatementCase.ScannersCommute` | internal/aichat/runtime_eino.go:934-1202 | collapsing and then lower-casing keywords gives what lower-casing and then collapsing gives, on every text |
| `StatementCase.KeyCommutes` | internal/aichat/runtime_eino.go:934-944 | the key is the statement with its keywords in lower case, collapsed |
| `StatementCase.OuterSpaceIsIgnored` | internal/aichat/runtime_eino.go:961-965 | white space of any kind around a statement leaves its key |
| `StatementCase.KeywordCaseIsIgnored` | internal/aichat/runtime_eino.go:934-1202 | statements that differ only in the case of whole unquoted keywords share a key |
| `StatementCase.SelectInAnyCase` | internal/aichat/runtime_eino.go:1064-1072 | SELECT 1 in any mixture of cases has the key select 1 |
| `StatementGaps.SqueezedKeepsGaps` | internal/aichat/runtime_eino.go:961-1202 | squeezing by either scanner leaves the two scanners in agreement or disagreement, as they were |
| `StatementMeaning.SameMeaningIff` | internal/aichat/runtime_eino.go:934-944 | two statements have the same reading, with quotes and brackets as regions, gaps as gaps and keywords without case, if and only if, squeezed outside all regions, they are written the same up to keyword case |
| `StatementMeaning.KeyIsMeaningIff` | internal/aichat/runtime_eino.go:934-1202 | equal keys are equal meanings, for a statement and every other one, if and only if both scanners see the same gaps in it |
| `StatementMeaning.PartnerIsWrong` | internal/aichat/runtime_eino.go:934-1202 | where the scanners part, exchanging that one separator gives a statement with the same key and another meaning, or the same meaning and another key, by which scanner sees it |
| `StatementMeaning.PlainKeyIsMeaning` | internal/aichat/runtime_eino.go:934-1202 | a statement whose bracketed names hold no separator and no quote shares its key exactly with the statements of its meaning |
| `StatementMeaning.GapsInName` | internal/aichat/runtime_eino.go:961-1062 | two bracketed names that differ in inner white space share a key |
| `StatementMeaning.QuoteInNameMerges` | internal/aichat/runtime_eino.go:961-1062 | a quote in a bracketed name makes statements with different string literals share a key |
| `StatementMeaning.QuoteInNameSplits` | internal/aichat/runtime_eino.go:961-1062 | a quote in a bracketed name gives statements that differ in a gap outside every region two keys |
| `ExecuteSignature.SameSignatureIff` | internal/aichat/runtime_eino.go:946-959 | for ids and tokens without the separator, two executions share a signature if and only if trimmed datasource, database and token, clamped page size and statement key agree; the statement may hold the separator |
| `ExecuteSignature.SeparatorInIdCollides` | internal/aichat/runtime_eino.go:946-959 | for every statement with a key and all trimmed x, y and d, the targets x SEP y, d and x, y SEP d share a signature, though both ids differ |
| `ExecuteSignature.SignatureTellsApart` | internal/aichat/runtime_eino.go:946-959 | an execution whose ids, token and statement key hold no separator shares its signature with another, whatever that one holds, if and only if the five parts agree |
| `ExecuteSignature.TargetsToldApartIff` | internal/aichat/runtime_eino.go:946-959 | the signature tells a statement's target from every other target if and only if neither id can be split at a separator into trimmed parts |
| `ExecuteSignature.SignatureBlankIff` | internal/aichat/runtime_eino.go:946-950 | only a statement with a blank key has no signature |
| `ExecuteSignature.PageSizeForms` | internal/aichat/runtime_eino.go:946-958 | a page size below one counts as a hundred, one above five hundred as five hundred, and any other tells executions apart |
| `MessageStream.AssistantMessageExtractor.constructor` | internal/aichat/service_stream.go:21-25 | the extractor starts with nothing found and nothing decoded |
| `MessageStream.AssistantMessageExtractor.FeedString` | internal/aichat/service_stream.go:66-126 | one rune inside the string moves the escape flags and the decoded text as the step function says |
| `MessageStream.AssistantMessageExtractor.FeedRune` | internal/aichat/service_stream.go:33-127 | one rune moves the fields as the step function says, nothing emitted |
| `MessageStream.AssistantMessageExtractor.Feed` | internal/aichat/service_stream.go:27-136 | a chunk takes the fields through all its runes, and what is returned is exactly what was newly decoded |
| `MessageStream.RunConcat` | internal/aichat/service_stream.go:27-136 | feeding two texts in a row is feeding their concatenation |
| `StreamDecoding.ChunkInvariance` | internal/aichat/service_stream.go:27-136 | any split of the text gives the same final state and the same concatenated output |
| `StreamDecoding.WindowSees` | internal/aichat/service_stream.go:35-45 | the 80-rune window contains a key after a rune exactly when the whole text so far does, if it did not before |
| `StreamDecoding.AtKey` | internal/aichat/service_stream.go:35-45 | the key is found at the rune with which the whole text first contains it |
| `StreamDecoding.KeyFoundIff` | internal/aichat/service_stream.go:35-45 | the key is found if and only if the text fed contains it |
| `StreamDecoding.KeysAre` | internal/aichat/service_stream.go:41-43 | the two keys looked for |
| `StreamDecoding.UnitsDecoded` | internal/aichat/service_stream.go:66-126 | raw characters, two-character escapes and four-digit escapes (section 7 of RFC 8259) decode one by one to their meanings |
| `StreamDecoding.ShortEscapes` | internal/aichat/service_stream.go:90-112 | the two-character escapes of section 7 of RFC 8259, one by one; other letters stand for themselves |
| `StreamDecoding.EscapedCharacter` | internal/aichat/service_stream.go:66-83 | every character below U+10000 comes out of its four-digit escape in either case, half a surrogate pair as the replacement character |
| `StreamDecoding.BrokenEscape` | internal/aichat/service_stream.go:84-88 | an escape with too few digits is dropped and what follows is read as usual |
| `StreamDecoding.UnknownEscape` | internal/aichat/service_stream.go:110-115 | an unknown escape is the character itself |
| `StreamDecoding.ReplyDecoded` | internal/aichat/service_stream.go:27-136 | after the first key, the first colon and the first quote, the string is decoded whole and the extractor is done, whatever follows |
| `StreamDecoding.StreamRoundTrip` | internal/aichat/service_stream.go:27-136 | a message encoded in a reply and fed in any chunks comes out as the concatenation of the outputs |
| `StreamDecoding.StreamIsMessageIff` | internal/aichat/service_stream.go:75-96 | the output is the message of section 7 of RFC 8259 if and only if no two escapes form a surrogate pair |
| `StreamDecoding.EmojiIsLost` | internal/aichat/service_stream.go:75-96 | an escaped surrogate pair comes out as two replacement characters |
| `GoMap.GoStyleParser.ParseMap` | internal/aichat/mongo_statement_normalize.go:76-116 | agrees with the recursive grammar on result and error and leaves the cursor where the map ends |
| `GoMap.GoStyleParser.ParseArray` | internal/aichat/mongo_statement_normalize.go:118-151 | agrees with the recursive grammar on result and error and leaves the cursor where the array ends |
| `GoMap.GoStyleParser.ParseValue` | internal/aichat/mongo_statement_normalize.go:153-165 | agrees with the recursive grammar, which takes nested maps, arrays and tokens; every successful parse moves the cursor on |
| `GoMapPrinting.PrintedValueParses` | internal/aichat/mongo_statement_normalize.go:153-213 | the printed form of a value, followed by the end, a blank or a bracket, parses to the value with the cursor at its end |
| `GoMapPrinting.RootParses` | internal/aichat/mongo_statement_normalize.go:39-49 | the parser reads any printed value, map, array or token, to its end |
| `GoMapPrinting.PrintedItemsParse` | internal/aichat/mongo_statement_normalize.go:118-151 | the printed items of an array parse in order after whatever was read before |
| `GoMapPrinting.PrintedEntriesParse` | internal/aichat/mongo_statement_normalize.go:76-116 | the printed entries of a map parse into the map, later keys overwriting |
| `GoMapPrinting.TokenReads` | internal/aichat/mongo_statement_normalize.go:167-201 | a token reads as nil, true, false, an integer, a float or itself by the words it is none of and the numbers it is none of, each if and only if |
| `GoMapPrinting.EntriesClosed` | internal/aichat/mongo_statement_normalize.go:76-116 | a map that is read ends with a closing bracket |
| `GoMapPrinting.ItemsClosed` | internal/aichat/mongo_statement_normalize.go:118-151 | an array that is read ends with a closing bracket |
| `GoMapPrinting.EndedTooSoon` | internal/aichat/mongo_statement_normalize.go:82-139 | where only blanks are left, a map or array is unterminated and a value missing |
| `GoMapPrinting.EntryRefused` | internal/aichat/mongo_statement_normalize.go:89-104 | an entry without a key, without a colon right behind it or without a value is refused, with that error |
| `Decimal.ParseForms` | internal/aichat/mongo_statement_normalize.go:194-196 | digits with or without a sign parse to their value if it is a 64-bit integer |
| `Decimal.DigitsValueSnoc` | internal/aichat/mongo_statement_normalize.go:194-196 | the value of digits, position by position |
| `Decimal.ParseRefuses` | internal/aichat/mongo_statement_normalize.go:194-196 | a text with any other character than digits after its sign is no integer |
| `GoMapPrinting.NormalizeMongoStatement` | internal/aichat/mongo_statement_normalize.go:10-49 | blank statements are refused, texts that are no printed map come back unchanged, the others as the JSON value of their parsed fields, empty arrays as null, or an error of the parser or of the encoder |
| `GoMapPrinting.PrintedMapNormalizes` | internal/aichat/mongo_statement_normalize.go:10-49 | a statement that is a printed map normalises to its fields, whatever text follows the closing bracket, if and only if no array in them is empty and no float is infinite or no number; with such a float it fails |
| `GoMapPrinting.EncodedIff` | internal/aichat/mongo_statement_normalize.go:118-151 | a parsed value is encoded as itself if and only if no array in it is empty |
| `GoMapPrinting.EmptyPipelineIsNull` | internal/aichat/mongo_statement_normalize.go:118-151 | a printed map with an empty pipeline reaches the database with a null pipeline |
| `GoMapPrinting.NameIsText` | internal/aichat/mongo_statement_normalize.go:10-49 | map[find:users] reaches the database with the text users |
| `GoMapPrinting.NanIsRefused` | internal/aichat/mongo_statement_normalize.go:30-33 | map[find:NaN] is refused, because JSON has no such number |
| `GoMapPrinting.NonFiniteIff` | internal/aichat/mongo_statement_normalize.go:30-33 | the tokens for floats that are no number: seven words in any case, an infinity with or without a sign |
| `GoMapPrinting.PrintInjective` | internal/aichat/mongo_statement_normalize.go:39-213 | documents that print alike have the same value |
| `TomlText.SplitJoin` | app_datasource.go:1455-1494 | splitting joined lines gives the lines |
| `TomlText.TrimNewlinesIsTrimLines` | app_datasource.go:1455-1513 | trimming newlines at the end of a text is dropping empty lines at the end |
| `TomlText.UnescapeEscape` | app_datasource.go:1629-1633 | unescaping after escaping is the identity (TOML v1.0.0, section String, basic strings) |
| `TomlText.TomlStringInjective` | app_datasource.go:1629-1633 | different values get different TOML strings |
| `TomlText.TomlStringIs` | app_datasource.go:1629-1633 | a TOML string is the value between quotes, character by character, with a backslash before each backslash and quote |
| `Wrangler.ReplaceDatabaseEntry` | app_datasource.go:1445-1494 | the block rewritten is the first one that carries the key with the value, all other lines are copied, and without such a block there is no result |
| `Wrangler.Upsert` | app_datasource.go:1416-1443 | the first of the four keys that is set and finds a block decides, repeated attempts are skipped without effect, otherwise the entry is appended; changed is reported exactly when the text differs |
| `WranglerLookups.BlockSpan` | app_datasource.go:1452-1478 | a block found starts with the header and ends before the next line that opens a section of whatever name |
| `WranglerLookups.EntryWritten` | app_datasource.go:1515-1527 | the block written for an entry, line by line |
| `WranglerLookups.UpsertLooksUp` | app_datasource.go:1416-1443 | the first block that assigns the id is rewritten, else that of the previous id, else that of the binding, else that of the previous binding, else the entry is appended |
| `WranglerLookups.SpacedLineNames` | app_datasource.go:1496-1504 | a block is found by any of its lines that assigns the TOML string of the value to the key, however the line is indented and spaced |
| `WranglerUpsert.LineMatches` | app_datasource.go:1496-1504 | a block holding a line that assigns the TOML string of a value to a key is found by that key and value |
| `WranglerUpsert.BlockHasEmptyLines` | app_datasource.go:1496-1504 | empty lines at the end of a block do not change what it is found by |
| `WranglerUpsert.SettledIsFixpoint` | app_datasource.go:1416-1527 | a text whose first block with the entry's own id or binding, whichever is looked up first, is the entry's own text is left as it is |
| `WranglerUpsert.UpsertIdempotent` | app_datasource.go:1416-1527 | when the first key looked up is the entry's own, a second upsert changes nothing, whichever key matched the first time or none did |
| `WranglerRepeat.UpsertIdempotentIff` | app_datasource.go:1416-1527 | for values without newlines, the upsert is idempotent on every file if and only if the entry has a trimmed database id, or a trimmed binding and neither an id nor a previous id |
| `WranglerRepeat.FoundByOwnOnly` | app_datasource.go:1496-1527 | the block of an entry is found by no id or binding but its own |
| `WranglerUpsert.UpsertIsOneEdit` | app_datasource.go:1412-1527 | every upsert rewrites one block, appends one or fills a blank file, and keeps all other lines in order up to empty lines at the end |
| `EntityNames.NormalizeNames` | app_console.go:766-785 | strictly increasing, and exactly the non-blank trimmed names |
| `EntityNames.FilterNames` | app_console.go:664-677 | strictly increasing, and exactly the names that match the pattern |
| `EntityNames.FilteredUnique` | app_console.go:664-677 | there is one increasing list of exactly the matching names |
| `EntityNames.SearchStrings` | app_console.go:690-700 | binary search finds how many names are below the cursor |
| `EntityNames.SortStrings` | app_console.go:766-785 | the same names in increasing order |
| `EntityNames.IncreasingUnique` | app_console.go:766-785 | an increasing list is determined by its members |
| `EntityNames.LessIff` | app_console.go:690-700 | the order of names is that of the first rune in which they differ, a prefix coming first |
| `EntityNames.MatchesIff` | app_console.go:664-677 | a blank pattern matches every name, any other one the names that contain it in lower case |
| `EntityPages.Paginate` | app_console.go:679-738 | the page of the increasing list of matching names at the cursor |
| `EntityPages.PageIsFirstAfterCursor` | app_console.go:690-738 | a page is the first limit names greater than the cursor; it is the last one exactly when no more follow, and then its cursor is empty |
| `EntityPages.TraversalIncreasing` | app_console.go:664-738 | over any sequence of cached items, one per page, and any pattern the names returned strictly increase: none is returned twice, each matches the pattern, follows the first cursor and was cached at one of the pages |
| `EntityPages.TraversalComplete` | app_console.go:664-738 | a finished traversal returns every matching name after the first cursor that was cached throughout |
| `EntityPages.OccursOnce` | app_console.go:679-738 | what is in an increasing list is in it at one place |
| `EntityPages.FixedListTraversal` | app_console.go:664-738 | on a fixed cache the pages end and concatenate to all the matching names after the cursor |
| `ThreadLog.Summarize` | internal/aichat/thread_compactor.go:104-153 | the block names the events in order, with their count and the earliest and latest time |
| `ThreadLog.Compact` | internal/aichat/thread_compactor.go:40-102 | over the thresholds the last MaxRecentEvents events stay and one block stands for the others, otherwise all events stay |
| `ThreadRuns.CompactionByThreshold` | internal/aichat/thread_compactor.go:40-102 | within both thresholds all events stay; beyond either the configured number of newest events stay, six by default, and one block names the others and spans their times |
| `ThreadLog.MergeBlocks` | internal/aichat/thread_working_set.go:276-304 | existing blocks, then the generated ones with a new id, the last ones kept |
| `ThreadRuns.SavedBlocks` | internal/aichat/thread_working_set.go:276-304 | a new block is added unless its id is taken, and the last three blocks, or as many as configured, are saved |
| `ThreadLog.EventsAppendedAfterLoad` | internal/aichat/thread_context.go:330-352 | exactly the current events whose id was not loaded, in order |
| `ThreadLog.ThreadStore.AppendEvent` | internal/aichat/thread_store.go:143-178 | an event with a kind goes to the end, one without is not stored |
| `ThreadLog.ThreadStore.Load` | internal/aichat/thread_working_set.go:90-129 | the compaction, merged blocks and loaded ids of the stored thread |
| `ThreadLog.ThreadStore.Persist` | internal/aichat/thread_context.go:304-328 | a compacted working set replaces the events by the retained ones and those appended since, blocks only if there are any |
| `ThreadRuns.PersistConserves` | internal/aichat/thread_context.go:304-352 | after a persist the log is what compaction retained and then the events appended during the turn, in order, if and only if nothing was compacted or no appended event reuses a loaded id |
| `ThreadRuns.PersistAgain` | internal/aichat/thread_context.go:304-352 | persisting the same result again changes nothing |
| `ThreadRuns.DroppedEventsNamed` | internal/aichat/thread_compactor.go:40-153 | the block of a compaction names exactly the events dropped and is saved last unless its id is taken |
| `ThreadRuns.TurnConserves` | internal/aichat/thread_context.go:304-352 | a turn drops the oldest events or none, and names what it drops in a block it saves |
| `ThreadRuns.RunConserves` | internal/aichat/thread_context.go:304-352 | over every run of turns with distinct event ids the log is the end of everything ever appended |
| `ThreadRuns.RunBounded` | internal/aichat/thread_compactor.go:77-102 | the log never exceeds the threshold by more than a turn appends, whatever the byte limit |
| `RecentEvents.Collect` | internal/aichat/thread_working_set.go:139-163 | scanning backwards and reversing gives the last max items in order |
| `RecentEvents.RecentMessages` | internal/aichat/thread_working_set.go:90-163 | the last messages of the retained events, or of the request when there are none |
| `RecentEvents.MessageForms` | internal/aichat/thread_working_set.go:139-163 | three kinds of events carry a message in three roles, their content or else their summary, if either has a text |
| `RecentEvents.CompactionKeepsRecentIff` | internal/aichat/thread_working_set.go:90-116 | compaction leaves the collected items as they were if and only if enough are found among the retained events or none were dropped |
| `MemoryEviction.CompactPatterns` | internal/aichat/memory_store.go:293-325 | ends within budget, with one pattern left or at a coldest pattern without id; for distinct ids the kept ones are those not archived, in order, each eviction over budget, none archived hotter than one kept |
| `MemoryEviction.EachPatternOnce` | internal/aichat/memory_store.go:293-325 | every pattern is either kept or archived, never both |
| `MemoryEviction.ArchivedAreColdest` | internal/aichat/memory_store.go:301-323 | no archived pattern was used more often than a kept one, nor as often and more recently, and each is marked |
| `MemoryEviction.EvictedOverBudget` | internal/aichat/memory_store.go:301-323 | each eviction happened while what was left was over the budget and more than one pattern |
| `MemoryMerge.MergeMemoryPattern` | internal/aichat/memory_store.go:344-390 | the first pattern with the problem's key or a hinted key is replaced, keeping id, confidence and what is not stated, else the pattern is added |
| `MemoryMerge.MergedFields` | internal/aichat/memory_store.go:344-390 | the merged pattern field by field: the known id, the new problem and times, lists and reason stated anew or kept, the higher confidence, counted once more |
| `MemoryMerge.FirstWithKey` | internal/aichat/memory_store.go:344-390 | a pattern can be saved over exactly when its key is not blank and is that of the problem or of a hint |
| `MemoryMerge.DistinctKeysIff` | internal/aichat/memory_store.go:344-381 | saving keeps one pattern a key if and only if no hint matches a pattern before the one that has the new pattern's own key |
| `MemoryMerge.NoHintsNoDoubles` | internal/aichat/memory_store.go:344-381 | without hints no key is doubled |
| `MemoryMerge.SavedAgain` | internal/aichat/memory_store.go:344-381 | saving the same problem again adds no pattern and counts it once more |
| `MemoryMarkdown.ParseMemoryMarkdown` | internal/aichat/memory_store.go:413-508 | the line loop with its current pattern computes the notes of the line-by-line reading |
| `MemoryMarkdown.PatternWritten` | internal/aichat/memory_store.go:510-521 | the seven lines of a pattern as they stand in the document, with the default reason and a count of at least one |
| `MemoryMarkdown.ListWritten` | internal/aichat/memory_store.go:523-528 | a list is written with bars between its items, an empty one as a dash |
| `MemoryFields.ListRoundTrip` | internal/aichat/memory_store.go:469-482 | a list of trimmed non-empty items without bars, other than the single dash, is read back from its joined form |
| `MemoryFields.UseRoundTrip` | internal/aichat/memory_store.go:484-521 | the use count is read back from the use line |
| `MemoryFields.ScanForms` | internal/aichat/memory_store.go:497-500 | a count is read past blanks, with or without a sign, up to the first character that is no digit |
| `MemoryDocument.PatternRead` | internal/aichat/memory_store.go:413-467 | the lines of a pattern close the pattern before and leave this one current, field by field |
| `MemoryDocument.ParseCompose` | internal/aichat/memory_store.go:392-528 | parsing the composed document gives every pattern back, in order, with problem, lists, reason and use count |
| `MemoryDocument.ParsedUsable` | internal/aichat/memory_store.go:413-467 | whatever the document holds, the patterns read have a problem, sanitised texts without empty items, and a count of at least one |
| `MemoryDocument.TitleOnly` | internal/aichat/memory_store.go:424-467 | a pattern of which only the title is there has no lists and counts once |
| `ApprovalStore.Store.Put` | internal/aichat/service.go:2998-3007 | the pair of conversation and approval holds the value, every other pair what it held, and no conversation stays without approvals |
| `ApprovalStore.Store.Get` | internal/aichat/service.go:3009-3021 | what the pair holds, if anything |
| `ApprovalStore.Store.Take` | internal/aichat/service.go:3023-3039 | what the pair held is returned and the pair removed, nothing else |
| `ApprovalStore.Store.Delete` | internal/aichat/runtime_eino.go:2918-2929 | the pair is removed, and its conversation with the last pair |
| `ApprovalStore.PutAt` | internal/aichat/service.go:2998-3007 | the nested update is, at every pair, one update of the map on pairs |
| `ApprovalStore.WithoutAt` | internal/aichat/service.go:3023-3039 | the nested removal is, at every pair, one removal from the map on pairs |
| `ApprovalProtocol.Service.constructor` | internal/aichat/service.go:118-130 | nothing pending, nothing stored |
| `ApprovalProtocol.Service.StoreCall` | internal/aichat/service.go:2998-3007 | a pending call is stored under its id |
| `ApprovalProtocol.Service.RunTool` | internal/aichat/service.go:1218-1447 | an approved call is run once; a failed execute_statement below one repair may store a repaired call with the next attempt number |
| `ApprovalProtocol.Service.ApproveCall` | internal/aichat/service.go:1200-1216 | a pending call is taken before it is decided, and only then run |
| `ApprovalProtocol.Service.TurnEvents` | internal/aichat/runtime_eino.go:1783-1798 | what tools store and run on the way of a turn, in order |
| `ApprovalProtocol.Service.RunTurn` | internal/aichat/runtime_eino.go:1498-1561 | an interrupt saves the checkpoint and a pending approval for it, a failure may leave a checkpoint, a response neither |
| `ApprovalProtocol.Service.ApproveCheckpoint` | internal/aichat/runtime_eino.go:2821-2872 | reject deletes approval and checkpoint; approve resumes and deletes the approval only after success, the checkpoint only when no approval is shown |
| `ApprovalProtocol.Service.Approve` | internal/aichat/service.go:1159-1216 | a decision goes to the checkpoint approval if there is one, else to the stored call, and leaves everything alone when it is malformed or nothing is pending |
| `ApprovalDecisions.StoredRejectOutcome` | internal/aichat/service.go:1200-1213 | a rejected stored call is taken out and recorded, not run, and nothing else changes |
| `ApprovalDecisions.StoredApproveOutcome` | internal/aichat/service.go:1200-1447 | an approved stored call is taken out and run once if its tool is reached; a repaired statement waits under its new id with the next attempt number in the same chain |
| `ApprovalDecisions.RefusedDecision` | internal/aichat/service.go:1159-1203 | a blank id, another choice, an unknown approval and one that cannot be resumed are refused and change nothing |
| `ApprovalDecisions.AskedIsPending` | internal/aichat/service.go:2998-3007 | a call asked for on the way of a turn is pending afterwards and has not run |
| `ApprovalDecisions.RunNowIsApproved` | internal/aichat/runtime_eino.go:1783-1798 | a call a resumed tool runs is one asked for and approved at once |
| `ApprovalDecisions.TurnOutcome` | internal/aichat/runtime_eino.go:1498-1561 | a response leaves the stores as they are, an interrupt saves checkpoint and approval, a failure at most the checkpoint |
| `ApprovalRuns.DecideKeeps` | internal/aichat/service.go:1200-1447 | a decided call keeps the invariant: ids, runs and chains of repair |
| `ApprovalRuns.EventsKeep` | internal/aichat/runtime_eino.go:1783-1798 | the events of a turn keep the invariant |
| `ApprovalRuns.ResumeKeeps` | internal/aichat/runtime_eino.go:2821-2872 | a resumed turn keeps the invariant, whether it fails, ends or is interrupted again |
| `ApprovalRuns.RunKeepsInv` | internal/aichat/service.go:1159-1447 | every run of turns and decisions with fresh ids keeps the invariant |
| `ApprovalRuns.RunsAtMostOnce` | internal/aichat/service.go:1200-1216 | in every run each stored call is run at most once, and never when it was rejected |
| `ApprovalDecisions.RejectedNeverRuns` | internal/aichat/service.go:1207-1213 | once a step of a run has rejected a pending approval, no call of that id is run in any later state |
| `ApprovalDecisions.ApprovedRunsOnce` | internal/aichat/service.go:1200-1447 | once a step of a run has approved a stored call and reached its tool, every later state has exactly one run of that id, of the call that was stored |
| `ApprovalRuns.ChainRunsAtMostTwice` | internal/aichat/service.go:1263-1320 | in every run one chain of repairs runs at most twice |
| `ApprovalRuns.PendingHaveCheckpoints` | internal/aichat/runtime_eino.go:2821-2852 | in every run each pending checkpoint approval has its checkpoint, and no two share one |
| `ApprovalCheckpoints.ResumeOutcome` | internal/aichat/runtime_eino.go:2821-2852 | a resumed approval stays pending exactly when the turn failed, and then its checkpoint and all other approvals stay; an interrupt hands the checkpoint to the new approval |
| `ApprovalCheckpoints.RejectOutcome` | internal/aichat/runtime_eino.go:2832-2841 | a rejected approval goes with its checkpoint, everything else stays and no tool is run |
| `ApprovalCheckpoints.OwnedIff` | internal/aichat/runtime_eino.go:2843-2851 | a step leaves a checkpoint no approval can resume if and only if a new turn fails after its checkpoint was saved, or a resumed turn ends by showing an approval of a stored call |
| `ApprovalCheckpoints.SecondApproval` | internal/aichat/runtime_eino.go:2821-2852 | approving the same approval twice runs the calls of the first resumed turn, and those of the second exactly when the first failed; otherwise the second approval is refused and changes nothing |
| `ApprovalCheckpoints.FailedResumeRunsAgain` | internal/aichat/runtime_eino.go:2843-2851 | such a run from the start: a turn interrupted, resumed, failed after running its call, approved again |
| `RecoveryGuards.ExecutedStatements` | internal/aichat/runtime_eino.go:838-892 | exactly the signatures of the successful executions among the messages |
| `RecoveryGuards.LatestExecuteStatementContext` | internal/aichat/runtime_eino.go:804-836 | the target of the last successful execution, the fallback filling in |
| `RecoveryGuards.RequestedExecuteStatements` | internal/aichat/runtime_eino.go:756-780 | the signatures of the calls, or none when a call has no statement |
| `RecoveryGuards.ShouldBlockDuplicate` | internal/aichat/runtime_eino.go:650-673 | holds exactly when every call is an execution that already succeeded |
| `RecoveryGuards.ShouldForceReplan` | internal/aichat/runtime_eino.go:675-721 | holds exactly when, after three discoveries and no execution, every call would run on the page's target without anyone preferring it |
| `RecoveryGuards.CountDiscovery` | internal/aichat/runtime_eino.go:903-932 | counts the discovery results |
| `RecoveryGuards.AllToolCallsAre` | internal/aichat/runtime_eino.go:744-754 | there is a call and every call has the name, up to case folding |
| `GuardOutcomes.CallsOnlyIff` | internal/aichat/runtime_eino.go:744-754 | there is a call, and each name, trimmed, is the tool name in any case, two characters beyond ASCII folding to s and k |
| `RecoveryGuards.FindResult` | internal/aichat/runtime_eino.go:894-901 | a message of that kind is present |
| `RecoveryGuards.ExecutedHasResult` | internal/aichat/runtime_eino.go:838-901 | a non-empty set of executed statements implies an execution result among the messages |
| `GuardOutcomes.PayloadTextIs` | internal/aichat/runtime_eino.go:810-815 | the JSON of a result is what follows its first line, or all of a single line |
| `GuardOutcomes.TargetOf` | internal/aichat/runtime_eino.go:822-831 | the target of an execution is that of its console result, else the one beside it, else the fallback, for datasource and database each |
| `GuardOutcomes.LatestIs` | internal/aichat/runtime_eino.go:804-836 | the latest target is that of the last result that decodes without an error |
| `GuardOutcomes.ExecutedIff` | internal/aichat/runtime_eino.go:838-892 | a signature is remembered if and only if a result that decodes without an error has it, by the statement of its console result or else the one beside it |
| `GuardOutcomes.FailuresAllowRetry` | internal/aichat/runtime_eino.go:650-673 | while every execution result reports an error or cannot be decoded, no output is a duplicate and the latest target is the fallback |
| `GuardOutcomes.SuccessBlocksRepeat` | internal/aichat/runtime_eino.go:650-673 | an output whose every call repeats target, statement, token and page size of a result without an error is a duplicate |
| `GuardOutcomes.ReplanIff` | internal/aichat/runtime_eino.go:675-721 | the replan guard objects if and only if there was no execution and three discoveries, the page has a datasource and is neither replaced nor preferred, and every call names the page or nothing |
| `Recovery.ToolCallingModel.ShouldForceWebSearchFinalization` | internal/aichat/runtime_eino.go:592-605 | the streak counts consecutive web searches and is reset by anything else; the second one triggers |
| `Recovery.ToolCallingModel.ParseWithRecovery` | internal/aichat/runtime_eino.go:436-590 | output, reply and streak are those of the four stages one after the other, and no call is ever forced |
| `Recovery.DuplicateRulesOutReplan` | internal/aichat/runtime_eino.go:650-709 | when one output is a duplicate, the replan guard holds of no output |
| `Recovery.RecoveredSafe` | internal/aichat/runtime_eino.go:477-590 | an output is reported exactly when the reply or its repair can be read, and it triggers neither the duplicate guard nor the replan guard |
| `Recovery.RecoveredFromReply` | internal/aichat/runtime_eino.go:436-590 | an output that calls tools was read from the reply it is reported with, which the model gave |
| `Recovery.UnobjectedIsKept` | internal/aichat/runtime_eino.go:436-590 | a reply no guard objects to is kept as it is |
| `Recovery.RepairOutcome` | internal/aichat/runtime_eino.go:436-476 | a reply that looks like one but cannot be read is replaced by its repair if that can be read |
| `Recovery.DuplicateOutcome` | internal/aichat/runtime_eino.go:539-568 | a duplicate is replaced by the reply to the request for another output if that is readable and no duplicate, else by the answer |
| `Recovery.ReplanOutcome` | internal/aichat/runtime_eino.go:508-537 | an output to be replanned is replaced by the reply to that request if it is readable and need not be, else by the answer |
| `Recovery.WebLoopOutcome` | internal/aichat/runtime_eino.go:477-506 | the first web search after one is let through and counted, the second replaced by a reply with a text and no calls or else by the answer |
| `Recovery.WebLoopIff` | internal/aichat/runtime_eino.go:592-605 | an output is a web-search loop if and only if it has no text, calls nothing but the web search, and there is a result of one |
| `Recovery.SecondWebSearchIff` | internal/aichat/runtime_eino.go:477-567 | after a counted web search the next output searches again if and only if another guard's request was answered with that |
| `Recovery.FirstWebSearchCounted` | internal/aichat/runtime_eino.go:592-605 | a web search let through with no other guard objecting is the first of its streak and counted |
| `RowCap.CapRows` | internal/aichat/result_analysis.go:305-349 | the binary search keeps the prefix the linear scan finds, with its size, and reports truncation exactly when not all rows fit |
| `RowCap.SizeIs` | internal/aichat/result_analysis.go:318-348 | an array is as long as its rows with two brackets and the commas between them, and cannot be encoded when one of its rows cannot |
| `RowCap.LongestFit` | internal/aichat/result_analysis.go:318-348 | the longest prefix that fits, or one row when none does |
| `RowCap.KeptBySize` | internal/aichat/result_analysis.go:318-348 | what is kept stays within the limit unless it is one row, and no longer prefix does |
| `RowCap.BoundaryIsLongest` | internal/aichat/result_analysis.go:318-341 | a fitting prefix followed by one that does not fit is the longest |
| `RowCap.DroppedIff` | internal/aichat/result_analysis.go:318-348 | rows are dropped exactly when there are several and they do not all fit |
| `RowCap.KeptWithinLimitIff` | internal/aichat/result_analysis.go:318-348 | what is kept stays within the limit if and only if the first row alone does |

## Left out

- Files, locks, encryption and directories: stores are sequences and maps with atomic
  operations; failures of the stores themselves are not modelled.
- SHA-256, JSON encoding and decoding, fmt, floating-point parsing, regular-expression
  sanitising and Unicode case mapping: parameters of the model. Confidence and last-used
  time of a memory pattern are carried as text and not read back.
- Bytes: strings are sequences of runes, so invalid or split UTF-8 is outside the model.
- The three in-literal flags of each statement scanner, of which at most one is set, are
  one flag and the open quote.
- sanitizeStatementForTool, which is not idempotent, is a parameter of the signature.
- Which tokens denote floats is a parameter of the Go-map parser; a float is carried as its token.
- Details and kinds of the names on a page, and the console cache itself.
- The library's sort is stood for by an insertion sort in `EntityNames.SortStrings`, and by
  the choice of any coldest pattern in `MemoryEviction.CompactPatterns`.
- The text and the counts by kind in thread summaries; the ids fmt and the clock produce are
  inputs, taken to be fresh in `ApprovalRuns` and of the fixed width of their layout in
  `ThreadRuns`.
- Tool results of the working set besides the way they are collected: the fields of tool and
  approval summaries, working context, memory notes.
- The turn graph: a turn is a list of store events and an end, chosen freely; concurrent
  turns and decisions are taken to be atomic. White space around checkpoint ids is not
  modelled.
- The wording of answers and prompts, locales, logging, and the way arguments of a tool call
  are read out of JSON.
- Identities, access scopes, risk assessment, schema privacy and plan limits.
