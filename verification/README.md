# RedactGate: a verified model

RedactGate replaces sensitive substrings of text with reversible tokens before the text leaves the
machine, and puts the real values back into what returns. This project models the parts that make
those promises and proves them for all inputs, all runs and all interleavings:

- the token vault, its store, the streaming de-tokenizer and the request pipeline
  (`Placeholders`, `Streaming`, `Tokens`, `Tokenizing`, `TokenVault`, `Payload`, `Pipeline`, `Entities`);
- the overlap resolver (`Merge`);
- document rewriting on the desktop: replacements over text and over formatting nodes, the CSV grammar,
  scanner and rewriter, anonymizing and restoring documents (`Sequences`, `Sorting`, `Splicing`, `Nodes`,
  `CsvLayout`, `Csv`, `CsvScanner`, `CsvTables`, `Documents`, `RestoredLabels`, `DocumentEngine`, `CsvDocuments`);
- the project label vault: entity resolution, caches, the surface dictionary, the password protection
  (`Labels`, `LabelStore`, `Dictionary`, `Identity`, `LabelEngine`, `KeyVault`);
- the hash-chained audit log, sequentially and under concurrent transactions (`Audit`, `AuditConcurrency`);
- the check digits (`CheckDigits`).

`dafny verify dfyconfig.toml` checks everything.

## How to read it

Code that works step by step is modelled by methods and classes with loops and invariants; each is proved
equal to a function on values, and the promises are lemmas about those functions. Where a promise of the
repository does not hold for every input, the model keeps the code's behaviour, a lemma names an input that
breaks the promise, and an if-and-only-if lemma says exactly when it holds:

- streaming agrees with one-shot de-tokenizing exactly when no rewritten placeholder is longer than 65
  characters (`Streaming.StreamAgreesIff`, `Streaming.LongKeyIsLost`); the comment in
  app/redaction/placeholders.py speaks of 64, the code tolerates one more;
- a rewritten CSV file reads back as intended exactly when no unquoted cell now holds the delimiter and no
  row was emptied away (`Csv.RewriteAgreesIff`, `Csv.SemicolonFallsApart`);
- the placeholders of a session stay distinct exactly when for every new value one of the draws or the keyed
  fallback was not in use yet (`Tokens.AllocateFreshIff`, `Tokenizing.AssignKeeps`); the fallback is not
  checked, and five values and a stuck generator are enough to lose one (`Tokens.FallbackCollides`);
- project labels are stable exactly when, among the spellings a project is asked for, none normalises to the text
  under which the spelling of another value is indexed (`Labels.StableIff`, for every set of spellings). Of the
  repository's norms only that of e-mails keeps a colon, so it suffices that no e-mail asked for begins with
  `surface:` (`Labels.UnmarkedIsStable`); three e-mails that break the promise are in `Labels.EmailsCanClash`.
  The label vault, its cache, the dictionary and the document engine are proved for any such set, which the
  vault object carries as the ghost field `used`;
- the dictionary's version number alone does not notice a deletion: a run of eight values, seven deletions and
  eight spellings comes back to the same version (`Dictionary.VersionsCollide`). With the invalidation that the
  server performs it is never stale (`Dictionary.NeverStale`);
- the restore cursor is aligned with the record exactly while all labels resolve
  (`Documents.CursorCounts`, `Documents.DeletedLabelMisaligns`);
- the audit chain detects every tampering but the removal of its tail (`Audit.TamperEvidence`); no interleaving
  forks it exactly if a failed lock request, which the code ignores, breaks its transaction, as it does in
  PostgreSQL (`AuditConcurrency.NoForkIff`, `AuditConcurrency.ForkWithoutLock`);
- Luhn misses exactly the exchange of 0 and 9, the IBAN check exactly the exchanges of B and 1, M and 2, X and 3
  (`CheckDigits.LuhnDetectsSwap`, `CheckDigits.IbanDetectsSwap`).

Cryptography is idealised: HMAC is injective and yields hexadecimal text, the audit HMAC never yields the
genesis value, AES-GCM opens a blob under its own key and associated data only, scrypt and HKDF are injective.
Randomness, detected spans, Unicode normalisation, name parsing, label scanning and rendering are parameters.

## Model

| member | source | states |
|---|---|---|
| Placeholders.GrammarIsMakePlaceholder | app/redaction/placeholders.py:13-22 | a text matches the placeholder pattern exactly if `make_placeholder` produces it from an entity type and 4 to 12 hex digits |
| Placeholders.GrammarInLetters | app/redaction/placeholders.py:13-22 | the pattern spelled out: two brackets, a capital, capitals, digits and underscores, an underscore, 4 to 12 lower-case hex digits, two brackets |
| Placeholders.MatchUnique | app/redaction/placeholders.py:14 | at one position at most one match starts |
| Placeholders.MatchesDisjoint | app/redaction/placeholders.py:14 | two matches never overlap |
| Placeholders.MatchLenSpec | app/redaction/placeholders.py:25-29 | the length found at a position is that of the match there, 0 exactly if there is none |
| Placeholders.PlainIsFixed | app/redaction/vault.py:147-166 | text without a match is left as it is |
| Placeholders.DetokAtCut | app/redaction/vault.py:147-166 | substitution commutes with cutting the text anywhere but inside a placeholder that would be rewritten |
| Placeholders.NoOpenNoMatch | app/redaction/vault.py:152-153 | the shortcut for text without `[[` skips no match |
| Placeholders.DetokFromIsDetok | app/redaction/vault.py:155-166 | the left-to-right pass over non-overlapping matches is the substitution |
| Placeholders.Substitute | app/redaction/vault.py:155-166 | the loop with the moving `last` index computes the substitution, unknown placeholders untouched |
| Placeholders.Resolve | app/redaction/vault.py:220-227 | resolving from a snapshot is the substitution |
| Streaming.PartialStartSpec | app/redaction/placeholders.py:35-50 | the withheld tail starts at the leftmost place where the tail pattern matches, final newline included |
| Streaming.TailIsUnfinished | app/redaction/placeholders.py:35 | the tail pattern spelled out: a bracket, or two with capitals, digits and underscores, an underscore with hex digits and one closing bracket each optional, and a line break at the very end |
| Streaming.HeldIs | app/redaction/vault.py:229-236 | withheld is the longest such tail, or its last 64 characters |
| Streaming.PrefixIsPartial | app/redaction/placeholders.py:35 | every proper prefix of a placeholder matches the tail pattern |
| Streaming.HoldIsClean | app/redaction/vault.py:229-246 | the cut a push makes is never inside a placeholder that would be rewritten, whatever follows |
| Streaming.PushKeepsMeaning | app/redaction/vault.py:238-246 | emitted text plus what the rest will give equals one-shot de-tokenizing, for every future |
| Streaming.StreamExact | app/redaction/vault.py:199-253 | for every text and every way of cutting it, pushes plus flush equal `detokenize` of the whole |
| Streaming.LongKeyIsLost | app/redaction/vault.py:229-246 | a placeholder of 66 or more characters survives un-resolved under some cutting |
| Streaming.StreamAgreesIff | app/redaction/vault.py:199-253 | all cuttings of all texts agree with one-shot de-tokenizing exactly if no rewritten placeholder exceeds 65 characters |
| Streaming.StreamDetokenizer.Push | app/redaction/vault.py:238-246 | the emitted text, the new buffer, at most 64 characters withheld, and meaning kept for every future |
| Streaming.StreamDetokenizer.Flush | app/redaction/vault.py:248-253 | the remainder is resolved and the buffer emptied |
| Streaming.StreamAll | app/redaction/vault.py:199-253 | a consumer that pushes all chunks and flushes gets the one-shot result |
| Entities.CountTypePermutes | app/schemas/entities.py:45-49 | type counts do not depend on the order of the spans |
| Tokens.MessageInjective | app/redaction/vault.py:71-73 | the fingerprinted message determines session, type and value |
| Tokens.AllocateFreshIff | app/redaction/vault.py:75-95 | the allocated placeholder is new exactly if one of the 32 draws is unused or the fallback happens to be |
| Tokens.FirstUnusedDraw | app/redaction/vault.py:75-95 | the first draw not in use is taken, and the fallback only after all of them |
| Tokens.FallbackCollides | app/redaction/vault.py:75-95 | five values of one type and a stuck generator: the unchecked fallback repeats a placeholder, and de-tokenizing puts the fifth value where the fourth stood |
| Tokens.SessionBijection | app/redaction/vault.py:110-145 | in a keyed, injective session (type, value) pairs and placeholders determine each other |
| Tokens.SnapshotIsLive | app/redaction/vault.py:168-196 | the pre-resolved snapshot agrees with live lookup on every placeholder |
| Tokens.TokenizeOneSpec | app/redaction/vault.py:123-143 | one span keeps the session keyed, stores its value under the placeholder, and adds or counts up one record |
| Tokens.StoredResolves | app/redaction/vault.py:147-179 | a stored value is what its placeholder resolves to while placeholders are distinct |
| Tokens.TokenizeOneCounts | app/redaction/vault.py:123-143 | one span adds exactly one occurrence under its type |
| Tokenizing.AssignKeeps | app/redaction/vault.py:121-144 | over a run of spans the session only grows and stays injective exactly if every new value found an unused draw or fallback |
| Tokenizing.AssignStores | app/redaction/vault.py:121-144 | every span's value is stored under the placeholder that replaces it |
| Tokenizing.AssignCounts | app/redaction/vault.py:121-144 | the occurrences of each type grow by the number of its spans |
| Tokenizing.DetokSplice | app/redaction/vault.py:147-166 | de-tokenizing a text with placeholders spliced in restores each replaced piece, values are not expanded again |
| Tokenizing.RoundTrip | app/redaction/vault.py:110-166 | de-tokenizing a tokenized text under any later state of the session gives the text back |
| Tokenizing.InertTextHasInertGaps | app/redaction/vault.py:147-166 | a source text without a known placeholder leaves none between the spans |
| TokenVault.InMemoryTokenStore.Put | app/redaction/store.py:86-88 | a record is entered under both keys, the indexes keep describing the same records, other sessions unchanged |
| TokenVault.InMemoryTokenStore.BumpOccurrence | app/redaction/store.py:90-93 | one record's counter grows by one, seen through both indexes |
| TokenVault.InMemoryTokenStore.GetByFingerprint | app/redaction/store.py:80-81 | finds the session's record with the fingerprint, if any |
| TokenVault.InMemoryTokenStore.AllForSession | app/redaction/store.py:95-96 | yields the session's records in the order they were put |
| TokenVault.Vault.AllocatePlaceholder | app/redaction/vault.py:75-95 | the drawing loop computes the allocation |
| TokenVault.Vault.Tokenize | app/redaction/vault.py:110-145 | the right-to-left rewriting loop yields the spliced text and the session after all spans |
| TokenVault.Vault.Detokenize | app/redaction/vault.py:147-166 | live de-tokenizing equals substitution by the snapshot |
| TokenVault.Vault.Snapshot | app/redaction/vault.py:168-179 | the snapshot loop computes the resolution map |
| Payload.RunCollects | app/schemas/openai.py:132-141 | a walk with a collecting function visits the texts in order and changes nothing |
| Payload.RunSupplies | app/schemas/openai.py:144-152 | a walk with a supplying function writes the given texts in the same order |
| Payload.PutGet | app/schemas/openai.py:107-152 | what was written is what is read, for every well-formed walker |
| Payload.GetPut | app/schemas/openai.py:107-152 | writing back what was read changes nothing |
| Payload.PutPut | app/schemas/openai.py:107-152 | the second of two writes wins |
| Payload.Untouched | app/schemas/openai.py:107-129 | no field but the walked texts is changed, at any path |
| Payload.PayloadWellFormed | app/schemas/openai.py:73-129 | the request walker never visits a place twice |
| Payload.RequestLens | app/schemas/openai.py:132-152 | extraction and injection form a lawful lens on every request payload |
| Payload.Coverage | app/schemas/openai.py:59-129 | redactable are a string content, the text of content parts typed text, input_text or output_text, tool call and function call arguments, in messages and message items of `input`, a string `input`, and the text of other items; those positions are read and written, each once, and nothing else |
| Payload.WalkFailsIff | app/schemas/openai.py:91-129 | the walk raises a TypeError exactly if `messages` or some `tool_calls` is true or a number other than zero |
| Payload.WalkContent | app/schemas/openai.py:73-88 | the content walk computes the content walker |
| Payload.WalkMessage | app/schemas/openai.py:91-104 | the message walk covers content, tool calls and the legacy function call in that order |
| Payload.WalkInput | app/schemas/openai.py:115-128 | the walk over `input` covers a string, message items and text parts |
| Payload.MapTexts | app/schemas/openai.py:107-129 | the whole walk; fails exactly where iterating a non-list raises |
| Payload.ExtractTexts | app/schemas/openai.py:132-141 | the strings at exactly the redactable positions, each once, or the type error |
| Payload.InjectTexts | app/schemas/openai.py:144-152 | the new strings at exactly the redactable positions and nothing else changed, or the length error |
| Pipeline.FilterKeepsSpans | app/redaction/policy.py:76-80 | policy filtering keeps spans in bounds and disjoint |
| Pipeline.JobHides | app/redaction/pipeline.py:117-147 | in one text exactly the detected spans of chosen types are replaced, each by a placeholder under which the session stores its type and text |
| Pipeline.SpansCount | app/redaction/pipeline.py:117-128 | per type, the remaining spans are the detected ones if the policy chooses the type, and none otherwise |
| Pipeline.BlockedMeans | app/redaction/policy.py:62-73 | blocked exactly in hard-block mode or if a chosen detected type is blocked; the offending types are the blocked ones, or all chosen ones |
| Pipeline.RequestGrows | app/redaction/pipeline.py:139-147 | over all texts of a request the session only grows and stays injective exactly while allocations are new |
| Pipeline.RequestRoundTrip | app/redaction/pipeline.py:98-163 | de-tokenizing each sanitized text under the final session gives the normalized text, although later texts added records |
| Pipeline.RequestCounts | app/redaction/pipeline.py:117-153 | conservation: per type, the records' occurrences account for every surviving span of the request |
| Pipeline.SanitizedComesBack | app/redaction/pipeline.py:98-163 | after a sanitized request each text de-tokenizes to its normalized text, and the audited counts are the occurrences stored, type by type |
| Pipeline.CountTypes | app/redaction/pipeline.py:187-192 | the counts list exactly the types that occur, with how often |
| Pipeline.RedactionPipeline.SanitizeRequest | app/redaction/pipeline.py:87-153 | refused, failed and sanitized outcomes; refusal, counts and every text that leaves in terms of what the detector finds in the normalized texts and what the policy names; other sessions unchanged |
| Merge.MergedIsSeparated | app/redaction/merge.py:41-89 | the result is start-sorted, disjoint and taken from the input |
| Merge.MergedChains | app/redaction/merge.py:41-89 | from every input span a chain of overlapping input spans with non-decreasing (score, length, source rank) leads to a kept one |
| Merge.ClusterKeepsMaximum | app/redaction/merge.py:41-89 | every overlap-connected cluster keeps a span of maximal key |
| Merge.StrictWinnerIsKept | app/redaction/merge.py:30-38 | a span that strictly beats all its overlappers is kept |
| Merge.BestIsKept | app/redaction/merge.py:30-38 | a span with a higher score, then longer, then from a more trusted source (manual, regex, llm, presidio, any other) than all it shares a character with is kept |
| Merge.TwoCompete | app/redaction/merge.py:52-89 | of two spans that share a character the beaten one is gone in either order; on a tie the one that starts first stays, and then the one that came first |
| Merge.MergeIdempotent | app/redaction/merge.py:41-89 | merging again changes nothing |
| Merge.MergePermutationInvariant | app/redaction/merge.py:41-89 | the kept positions and keys are the same for every order of the input |
| Merge.ScanBack | app/redaction/merge.py:66-81 | the backward scan evicts at most one kept span and otherwise decides as one comparison with the last |
| Merge.MergeSpans | app/redaction/merge.py:41-89 | sort, scan, evict and re-sort compute the reference fold |
| Splicing.SortAscends | app/desktop/engine.py:71-75 | sorting disjoint spans by start puts them in text order |
| Splicing.DescendingMirrors | app/desktop/engine.py:71-75 | the right-to-left order of disjoint spans mirrors the left-to-right one |
| Splicing.ApplyReplacements | app/desktop/engine.py:71-75 | replacing right to left equals the left-to-right splice of gaps and contents |
| Nodes.ReplaceOneTags | app/desktop/formats.py:253-276 | one replacement on nodes splices the text tagged with node numbers |
| Nodes.TagsDetermineNodes | app/desktop/formats.py:253-276 | the tagged text determines the nodes |
| Nodes.ReplaceOneAt | app/desktop/formats.py:267-275 | what every single node becomes: kept, cut, or cut with the new text |
| Nodes.ApplyOne | app/desktop/formats.py:262-275 | the loop over the nodes performs one replacement |
| Nodes.ApplyToNodes | app/desktop/formats.py:253-276 | the joined result is the splice of the join, the number of nodes is unchanged, and every character outside the spans stays in its node |
| CsvLayout.ScanOfRender | app/desktop/formats.py:136-176 | scanning undoes rendering on every well-formed layout |
| CsvLayout.RenderOfScan | app/desktop/formats.py:136-176 | every text is the rendering of its scan, which is well-formed |
| CsvTables.TableReadsBack | app/desktop/formats.py:136-230 | a table written with quotes where they are needed, any delimiter and any of the three line ends reads back with the same rows, columns and values |
| Csv.UnescapeEscape | app/desktop/formats.py:192-226 | un-doubling quotes undoes doubling them, and doubled quotes never end a cell |
| Csv.CellWritten | app/desktop/formats.py:221-228 | what a rewritten cell looks like: bare, or in quotes for a quote, a line break or a comma that is new; a quoted cell stays quoted |
| Csv.RereadIsScan | app/desktop/formats.py:212-230 | what scanning any edited layout yields, split cells and swallowed rows included |
| Csv.RewriteAgreesIff | app/desktop/formats.py:136-230 | the rewritten text has the same rows and columns with every cell replaced exactly if no plain cell holds the delimiter and no row is swallowed |
| Csv.SafeRewriteAgrees | app/desktop/formats.py:212-230 | non-empty values without the delimiter in plain cells, or any with comma, read back as intended |
| Csv.SemicolonFallsApart | app/desktop/formats.py:226-227 | with semicolons a value with a semicolon falls apart |
| CsvScanner.SpansInOrder | app/desktop/formats.py:136-176 | the recorded spans are in order, disjoint and in bounds |
| CsvScanner.SpansApart | app/desktop/formats.py:136-176 | any two spans of the scanned rows lie apart, in reading order and within the text |
| CsvScanner.CsvCells | app/desktop/formats.py:136-176 | the scanner terminates and records exactly the spans of the layout, row by row |
| CsvScanner.ScanCellAt | app/desktop/formats.py:142-161 | one cell, quoted or not, with stray text behind a closing quote skipped |
| CsvScanner.ReadUnits | app/desktop/formats.py:204-210 | the units are the decoded cells in reading order |
| CsvScanner.RawRepsRender | app/desktop/formats.py:212-230 | replacing cell contents at their offsets is rendering the edited layout |
| CsvScanner.Rewrite | app/desktop/formats.py:212-230 | the rewriter produces the rendering of the edited layout |
| Labels.ResolveInv | app/desktop/engine.py:307-338 | resolution keeps one owner per fingerprint, all spellings' norms with their entity, the cache current, and answers with the owner of the norm |
| Labels.NoSteal | app/desktop/engine.py:312-331 | without clashes among the spellings in use, a spelling's fingerprint never belongs to another entity |
| Labels.AfterInv | app/desktop/vaultdb.py:275-382 | every call keeps the invariant; only deletion takes a fingerprint from its owner |
| Labels.RunInv | app/desktop/vaultdb.py:275-382 | in every reachable state, deletions and locking included, the cache and index are what loading the tables would build |
| Labels.RunKeeps | app/desktop/engine.py:307-338 | in deletion-free runs every fingerprint keeps its owner |
| Labels.Stable | app/desktop/engine.py:307-345 | without clashes among the spellings asked for, equal norms get equal labels for ever, and outside PERSON different norms get different ones |
| Labels.ClashSteals | app/desktop/engine.py:312-316 | a clash moves a label within four resolutions |
| Labels.StableIff | app/desktop/engine.py:307-345 | for every set of spellings: all deletion-free runs that ask for them are stable exactly if no three of them clash |
| Labels.UnmarkedIsStable | app/desktop/engine.py:81-96 | labels are stable for ever wherever no e-mail asked for begins with `surface:`, since no other norm keeps a colon |
| Labels.EmailsCanClash | app/desktop/engine.py:90-91 | three e-mail addresses, which are only case-folded, clash, and labels are not stable where they are asked for |
| Labels.DeleteInv | app/desktop/vaultdb.py:377-382 | deletion removes the entity with its variants and drops the cache |
| LabelStore.ListingUnique | app/desktop/vaultdb.py:304-306 | the sorted entity list is determined by the entities |
| LabelStore.StringLeIff | app/desktop/vaultdb.py:304-306 | categories are compared at the first place where they differ |
| LabelStore.LabelVault.Load | app/desktop/vaultdb.py:275-302 | loading builds the entities and the index from the tables |
| LabelStore.LabelVault.ByFingerprint | app/desktop/vaultdb.py:312-315 | finds the owner exactly if there is one |
| LabelStore.LabelVault.AddEntity | app/desktop/vaultdb.py:317-335 | the entity gets the number after the highest, in table, cache and index |
| LabelStore.LabelVault.AddVariant | app/desktop/vaultdb.py:337-346 | the variant is entered in table, cache and index unless the entity has it |
| LabelStore.LabelVault.SetCanonical | app/desktop/vaultdb.py:348-356 | the canonical value changes in table and cache alike |
| LabelStore.LabelVault.Bump | app/desktop/vaultdb.py:366-375 | the counter grows in the table, and in the cache if it is loaded |
| LabelStore.LabelVault.DeleteEntity | app/desktop/vaultdb.py:377-382 | the rows go and the cache is dropped |
| Dictionary.ViewSpec | app/desktop/engine.py:202-207 | a surface stands for the first entity in order that has it |
| Dictionary.ValuesFound | app/desktop/engine.py:202-207 | detection finds exactly the values with at least three characters, six for numbers, and of several entities the first by category and number |
| Dictionary.VersionDecides | app/desktop/engine.py:196-201 | where only variants were added, an equal version means an equal dictionary |
| Dictionary.NeverStale | app/desktop/engine.py:193-216 | in every run detection works with the dictionary of the current entities |
| Dictionary.VersionsCollide | app/desktop/engine.py:198-201 | in a run that builds eight entities, deletes seven and adds eight spellings the version comes back, so a dictionary kept over the deletions would be reused and find deleted values |
| Identity.ResolveIdentifies | app/desktop/engine.py:307-338 | a known value is answered with its owner, a person that exactly one entity can be (same surname, no contradiction in given name, patronymic or given stem) with that one, anything else with a new entity; what is known and the better name are merged, and nobody else changes |
| Identity.OnlyFitIsLink | app/desktop/engine.py:158-167 | a mention is linked exactly if one person fits it |
| LabelEngine.Detector.Surfaces | app/desktop/engine.py:196-216 | the dictionary is reused on an equal version and rebuilt otherwise |
| LabelEngine.Anonymizer.Surfaces | app/desktop/engine.py:228-229 | detection gets the dictionary of the current entities |
| LabelEngine.Anonymizer.Resolve | app/desktop/engine.py:307-338 | the new state of vault, cache and dictionary, and the entity found, with who that is in terms of the entities' fields |
| LabelEngine.Anonymizer.AddManual | app/desktop/engine.py:340-345 | resolution of the stripped value, then the requested exclusion, dictionary dropped |
| Documents.CursorCounts | app/desktop/engine.py:382-394 | the cursor counts resolved labels and is aligned exactly while all resolve |
| Documents.SpliceOver | app/desktop/engine.py:372-395 | replacing the inserted labels by any spellings gives the text with those spellings in place |
| Documents.RestoreAllExact | app/desktop/engine.py:372-395 | with an aligned cursor every mention of every unit gets the recorded spelling |
| Documents.RestoreUsesLatest | app/desktop/vaultdb.py:401-410 | restoring gives the document in the spellings of the latest record with its labels |
| Documents.RestoresOriginal | app/desktop/pipeline.py:63-109 | every unit's original text comes back, if the scanner finds exactly the inserted labels, all resolve, and the record is the latest |
| Documents.RecordedIsLatest | app/desktop/vaultdb.py:386-410 | a record stays the latest with its digest until another one comes |
| Documents.DeletedLabelMisaligns | app/desktop/engine.py:383-392 | behind a deleted label the recorded spellings are lost |
| RestoredLabels.RestoredReadsBack | app/desktop/engine.py:372-395 | every label that stands for an entity becomes the recorded spelling where the record names the same label at its place in the document, and the canonical value everywhere else |
| RestoredLabels.WithoutRecord | app/desktop/engine.py:372-395 | an anonymized document without a record comes back in the canonical values |
| RestoredLabels.RecordUsedIff | app/desktop/engine.py:400-408 | a record is used exactly if the latest anonymized document with the digest has it and it names the labels found, in order |
| DocumentEngine.UnknownSpec | app/desktop/engine.py:383-385 | unknown are exactly the labels without an entity |
| DocumentEngine.MarksMean | app/desktop/engine.py:354-370 | exactly the mentions of entities that are not excluded are marked, each with its owner's label |
| DocumentEngine.RunState.Add | app/desktop/engine.py:366-368 | occurrences are appended and the counter agrees with them |
| DocumentEngine.BumpAll | app/desktop/engine.py:397-398 | every entity's occurrences grow by its count and nothing else changes |
| DocumentEngine.Desk.AnonymizeUnit | app/desktop/engine.py:354-370 | the unit with exactly the mentions of entities not excluded replaced by their labels, the states of the vault and the run state |
| DocumentEngine.Desk.AnonymizeFile | app/desktop/pipeline.py:63-90 | all units so rewritten, the record, and the counters of all entities |
| DocumentEngine.DocumentComesBack | app/desktop/pipeline.py:63-127 | after anonymizing, deletion-free calls and documents with other labels, restoring gives the original texts |
| DocumentEngine.Desk.RestoreUnit | app/desktop/engine.py:372-395 | a replacement for every label that stands for an entity, with the spelling that belongs there, the moved cursor, the unknown labels |
| DocumentEngine.Desk.RestoreFile | app/desktop/pipeline.py:93-127 | all units restored label by label, counted across the document, with or without a record |
| CsvDocuments.AnonymizedCells | app/desktop/formats.py:204-230 | reading the anonymized file gives the anonymized cells |
| CsvDocuments.CsvRoundTrip | app/desktop/pipeline.py:63-109 | anonymizing and restoring a CSV file gives the same rows with the same values, for any delimiter |
| KeyVault.UnlockIff | app/desktop/vaultdb.py:154-168 | unlocking succeeds with exactly the protecting password and otherwise changes nothing |
| KeyVault.OnlyLastSetUnlocks | app/desktop/vaultdb.py:136-194 | in every run exactly the last-set password unlocks |
| KeyVault.KeysHeld | app/desktop/vaultdb.py:130-194 | in every run an unlocked state holds the three keys of the data key, each for its purpose, and any other state none |
| KeyVault.InitializesIff | app/desktop/vaultdb.py:136-152 | in every run initializing succeeds exactly if nothing was set and the password has six characters |
| KeyVault.ChangesIff | app/desktop/vaultdb.py:170-185 | in every run a change succeeds exactly with the last-set password and a new one of six characters |
| KeyVault.UnlocksIff | app/desktop/vaultdb.py:154-194 | unlocking with the last-set password unlocks, any other changes nothing, locking locks |
| KeyVault.UnlockOutcomes | app/desktop/vaultdb.py:154-168 | in any state which of the four outcomes unlocking has, and that a wrong verifier leaves the vault locked |
| KeyVault.SameKeys | app/desktop/vaultdb.py:130-185 | whenever unlocked, the same keys are installed |
| KeyVault.ValuesSurvive | app/desktop/vaultdb.py:130-194 | a value encrypted earlier decrypts whenever the vault is unlocked again |
| KeyVault.OnlyOwnKeyOpens | app/redaction/vault.py:97-106 | an encrypted value opens with the key of its own scope and vault and with no other |
| KeyVault.KeyStore.InitializeWith | app/desktop/vaultdb.py:136-152 | the rows written, the keys installed, the errors |
| KeyVault.KeyStore.UnlockWith | app/desktop/vaultdb.py:154-168 | the keys installed, or which error |
| KeyVault.KeyStore.ChangeTo | app/desktop/vaultdb.py:170-185 | the key re-wrapped under the new password, or which error |
| KeyVault.KeyStore.LockUp | app/desktop/vaultdb.py:187-194 | the keys wiped |
| Audit.HashInjective | app/audit.py:41-44 | the event hash determines previous hash and payload |
| Audit.GenesisIs | app/audit.py:24-44 | the genesis value is sixty-four zeros |
| Audit.RecordVerifies | app/audit.py:145-161 | appending the next event keeps the chain valid |
| Audit.HashesDistinct | app/audit.py:41-44 | all hashes of a valid chain differ |
| Audit.PrefixVerifies | app/audit.py:332-347 | every prefix of a valid chain verifies |
| Audit.TamperEvidence | app/audit.py:332-347 | events whose hashes come from a valid chain verify exactly if they are a prefix of it |
| Audit.EditDetected | app/audit.py:332-347 | an altered event is detected |
| Audit.SwapDetected | app/audit.py:332-347 | two exchanged events are detected |
| Audit.DeletionDetected | app/audit.py:332-347 | a removed event is detected unless it was the last |
| Audit.InsertionDetected | app/audit.py:332-347 | an inserted event is detected |
| Audit.TamperEvidenceAcrossTeams | app/audit.py:167-203 | hashes of other teams' chains do not help |
| Audit.InMemoryAuditSink.Record | app/audit.py:296-330 | the event is linked and appended to its team's chain, no other chain changes |
| Audit.InMemoryAuditSink.Verify | app/audit.py:332-347 | the loop decides validity of any content |
| AuditConcurrency.StepKeeps | app/audit.py:101-164 | each statement of each transaction keeps the lock discipline, all committed chains valid, and only extends them |
| AuditConcurrency.NoFork | app/audit.py:101-203 | in every state of every interleaving each team's committed chain verifies, if no transaction goes on without its lock |
| AuditConcurrency.NoForkIff | app/audit.py:125-131 | every committed chain verifies in every interleaving exactly if a failed lock request breaks its transaction |
| AuditConcurrency.AppendOnly | app/audit.py:101-164 | what was committed stays in its place |
| AuditConcurrency.RecordingAppends | app/audit.py:101-164 | a transaction that locks, reads, inserts and commits appends the linked event and leaves the lock free |
| AuditConcurrency.EndingFrees | app/audit.py:120-123 | commit and rollback free exactly the transaction's own locks |
| AuditConcurrency.TeamsIndependent | app/db.py:45-58 | only a commit of a transaction that recorded for a team changes that team's chain |
| AuditConcurrency.ForkWithoutLock | app/audit.py:125-131 | where a transaction stays usable after a failed lock request, two of them fork the chain |
| CheckDigits.Luhn | app/redaction/validators.py:26-44 | the right-to-left loop decides the Luhn condition on the cleaned text |
| CheckDigits.LuhnCheckDigit | app/redaction/validators.py:26-44 | every number has exactly one check digit: what its doubled sum lacks to a multiple of ten |
| CheckDigits.SeparatorsVanish | app/redaction/validators.py:17-23 | blanks, line breaks and hyphens vanish, everything else stays in order |
| CheckDigits.LuhnDetectsChange | app/redaction/validators.py:26-44 | every change of one digit is rejected, at any length |
| CheckDigits.LuhnDetectsSwap | app/redaction/validators.py:26-44 | an exchange of neighbours passes exactly for equal digits and for 0 with 9 |
| CheckDigits.SinCheck | app/redaction/validators.py:47-55 | nine digits, no leading 0 or 8, and Luhn |
| CheckDigits.SinIff | app/redaction/validators.py:47-55 | nine digits, the first neither 0 nor 8, the last one the check digit of the others |
| CheckDigits.IbanMod97 | app/redaction/validators.py:62-77 | shape, conversion and remainder of the cleaned, upper-cased text |
| CheckDigits.UpperIs | app/redaction/validators.py:64 | small letters count as their capitals |
| CheckDigits.IbanIff | app/redaction/validators.py:58-77 | accepted are exactly a country, check digits and an account of the right shape whose check digits are 98 less the remainder |
| CheckDigits.IntOfIsNum | app/redaction/validators.py:67-75 | the integer of the converted string is the running value with letters as two digits |
| CheckDigits.SuffixCancels | app/redaction/validators.py:75 | a common suffix neither hides nor creates a difference modulo 97 |
| CheckDigits.IbanDetectsChange | app/redaction/validators.py:62-77 | a digit for a digit or a letter for a letter, anywhere, is rejected |
| CheckDigits.IbanDetectsSwap | app/redaction/validators.py:62-77 | an exchange of neighbours of the account part passes exactly for equal characters and three letter-digit pairs |

## Left out

- TokenVault.InMemoryTokenStore.Put: a reference to a record is its position among the session's records, so
  sharing of record objects with other holders is not modelled; overwriting a stored fingerprint, which
  `tokenize` never does, is excluded.
- CsvScanner.ReadUnits: the category that a header cell forces on its column comes from pattern tables and is
  left out.
- LabelStore.LabelVault.AddEntity: an entity object is referred to by its key; entity objects that callers keep
  after a deletion, and other projects' rows, are not part of this model.
- Labels.Stable: labels of people are only shown to be stable, not to be different for different people; linking
  aliases is what the code is for. Runs with deletions are excluded, because the number of a deleted top label
  can be given again.
- Payload.MapTexts: the payload is walked on values; the deep copy and its mutation in place appear as a result.
- CheckDigits.Luhn: white space, digits and upper-casing are those of ASCII.
- Placeholders.Substitute: regular expressions appear as predicates on character sequences.
- DocumentEngine.Desk.AnonymizeFile: the mentions of each unit are given; detection, header categories and the
  counters kept while restoring are not modelled, and units are processed one after the other instead of inside
  the format handler's callback.
- AuditConcurrency.NoFork: isolation is READ COMMITTED, a transaction's statements are atomic, and a crash of the
  database is a rollback.
- KeyVault.OnlyLastSetUnlocks: a crash between the three writes of `initialize` is not modelled.
- Manual editing of labels through the desktop server, which bypasses the fingerprint index.
- The `mask` policy mode, which the repository does not implement, and entity types outside the placeholder grammar.
- A replacement with an empty span at a node boundary; the desktop engine never makes one.
- Detection: regex packs, rule-based and model-based recognisers, gazetteers, stemming, Unicode normalisation.
- Encodings, delimiter sniffing, OOXML, PDF and OCR handling, zip writing.
- Provider adapters, HTTP routes, authentication, the admin API, migrations, the web console.
- The remaining validators (SSN, EIN, ITIN and the like): table lookups without a property across inputs.
