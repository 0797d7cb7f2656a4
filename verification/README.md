# NetSage state machines in Dafny

A Dafny 4.11 model of the state machines that surround NetSage's input and output, with proofs about every run of them.
`dafny verify dfyconfig.toml` verifies the whole project. The source paths below are relative to the NetSage repository.

| files | what they model |
|---|---|
| `CodexKeyring`, `TokenRefresh` | the chunked token store in the OS keyring and the refresh lock (`ai/providers/openai_codex/auth.py`) |
| `ShellTokens`, `ConfigParser`, `ConfigDocuments`, `ConfigRoundTrip`, `StrayBlocks`, `HeaderMatching` | the strict and the loose reader of `config / edit / set / next / end` text (`drivers/fortios/parsers.py`) |
| `ScopeScanner`, `CommandRendering`, `CommandRegistry`, `ArgumentTexts`, `CatalogPromotion` | the command catalogue: scope scan, argument extraction, rendering, identifiers, execution dispositions, coverage (`drivers/fortios/catalog`) |
| `HaModels`, `HaHistory`, `HaEpisodes`, `HaCorrelation`, `HaDiagnosis`, `HaExpectations`, `HaInvestigation` | high-availability diagnostics from history lines to the report (`drivers/fortios/semantic/ha_history.py`, `investigations`) |
| `LocalState` | devices, credential profiles, SSH trust and keyring secrets under failing writes (`onboarding`, `credentials`, `state`, `inventory`) |
| `Policies`, `Evidence`, `Diagnoses`, `AgentRuntime`, `ReportHistory` | broker, audit, evidence store, collector, agent loop, reports and their history |
| `EventStream` | the server-sent-event reader (`ai/providers/openai_codex/client.py`), an instance of section 9.2 of the WHATWG HTML standard |
| `Wrappers`, `Text`, `Sequences` | options, results, Python's string operations, multiplicities |

## How the source is represented

- Objects whose methods update fields are classes; loops over local lists, sets and counters are methods with invariants.
  Each such method is tied by its contract to a function or relation, and the lemmas are about those.
- Whatever may fail fails at will: a keyring, YAML or SQLite access that raises has no effect. For YAML this is what
  `src/netsage/state/atomic.py:59-69` achieves. Ghost fields record the contents after every call (`history`, `trace`) and
  count the failures (`faults`), so contracts can speak of every intermediate state.
- The AI provider, the device handlers and the collector are unconstrained: any answer at any step.
- Regular expressions over device messages are a classifier parameter, JSON decoding and YAML are parameters, and
  `str.casefold` is exact on ASCII with a parameter for other characters. Time stamps are microseconds with an optional
  offset in minutes. The order of ISO texts is written as the order of local readings, then of printed offsets
  ("no offset" before "+", ascending, before "-", by magnitude); that is the order of the texts because a missing fraction
  sorts before ".", and "+" and "-" sort before "." as well.

## Results that depend on a condition

- The keyring `save` keeps the old bundle on failure exactly if its generation is not the live one (`RollbackKeepsBundle`);
  `delete` of a usable bundle is atomic exactly if the active entry is no manifest: otherwise its first removed chunk
  leaves an unusable bundle, never another one (`CodexKeyring.TokenStore.Delete`).
- Argument names need not be unique (`NamesMayCollide`); they are exactly if no base name reads like a numbered
  repetition of another one (`ExtractedNamesDistinctExactly`). Blank placeholders such as `< >` stay in the rendered command
  (`RenderingIsPositional` says exactly when a bracket is left). IPv6 addresses, and networks without host bits, print
  their zone, and a zone that holds a bracket is the one way for an accepted value to bring one in (`RenderedClean`, exact
  for every kind of argument; `BracketedZonePrinted`). Such a zone can take the place of a later placeholder
  (`BracketedValueMisplaces`).
- The scope scan is faithful exactly if no nested block carries its root's key (`FaithfulExactly`): otherwise the `end` of
  that block closes the enclosing scope (`RepeatedRootClosesScope`).
- A header line with irregular inner white space matches the header, but the literal containment test at
  `src/netsage/drivers/fortios/parsers.py:427-429` can still refuse the text (`TabbedHeaderRefused`). The round trip of
  the strict reader holds exactly if the text contains the header literally (`StrictRoundTrip`), which every printed text
  does (`PrintedTextRoundTrip`).
- After an entry closed by `next` the two readers agree exactly if no `edit` line stands outside the entries, at whatever
  depth (`StrayLinesExactly`); after a section they agree exactly if it has an error or no such line follows
  (`TrailingLinesExactly`).
- Episodes follow the text order of their time stamps. They are the connected components of the in-window relation, for
  every window, if and only if the sorted list is in time order on each clock and the clocks do not interleave
  (`EpisodesAreChainsIffChronological`); mixed offsets break this in both directions (two counterexamples). For any single
  window the exact condition is that neighbours are linked exactly where an in-window pair spans them
  (`EpisodesAreChainsAtWindowExactly`).
- Callers of `valid_tokens` share one refresh if the bundle stays stale until it is renewed, which a clock that never goes
  back ensures (`ForwardClockStaysStale`); mutual exclusion and the order of refreshes hold for any clock.
- The HA workflow raises exactly if the history has more than 512 episodes (`InvestigateHa`), which histories can have
  (`AnyNumberOfEpisodes`).
- Coverage totals of individually valid definitions hold exactly if as many definitions have sanitized-text output as have
  sanitized-text execution (`CoverageValidExactly`); the extractor's definitions always do (`PublishedCatalogValid`).
- Replacing a trust record keeps integrity exactly if the record has the address of the device stored under its name
  (`ReplacementKeepsIntegrity`); a device value read before the device was removed and added again need not have it.
- An `add_password_profile` that fails after storing the secret restores the keyring exactly if it held no orphaned secret
  under that name (`AddPasswordProfile`).
- The stream reader's 1,000,000-byte limit is exceeded exactly by an unterminated completed event without earlier output
  (`OutputWithinLimitExactly`). Its data values differ from the standard's exactly on values with more leading white space
  and on "[DONE]" (`ValueIsStandardExactly`); the standard drops an unterminated event, the reader accepts a completed one.

## Model

| member | source | states |
|---|---|---|
| `CodexKeyring.ChunkAccountInjective` | src/netsage/ai/providers/openai_codex/auth.py:210-215 | Distinct (generation, index) pairs have distinct chunk accounts, and none is the active account. |
| `CodexKeyring.Codec.ParseManifest` | src/netsage/ai/providers/openai_codex/auth.py:218-235 | A manifest is accepted if and only if its version equals 2 (2.0 included), its generation is valid and its chunk count is an integer from 1 to 64. |
| `CodexKeyring.ManifestRoundTrip` | src/netsage/ai/providers/openai_codex/auth.py:69-115 | Reading a written manifest gives back generation and count if and only if the count is 1 to 64. |
| `CodexKeyring.Chunks` | src/netsage/ai/providers/openai_codex/auth.py:69-90 | Chunks join to the text, each has 1 to 1,000 characters, and their number is the length divided by 1,000, rounded up. |
| `CodexKeyring.ChunkLimit` | src/netsage/ai/providers/openai_codex/auth.py:25-26 | The 64-chunk limit refuses exactly the texts above 64,000 characters. |
| `CodexKeyring.OtherGenerationInvisible` | src/netsage/ai/providers/openai_codex/auth.py:117-135 | Whatever is stored, changed or removed under a generation other than the live one, `load` gives the same outcome. |
| `CodexKeyring.LoadExactly` | src/netsage/ai/providers/openai_codex/auth.py:117-135 | `load` finds nothing exactly without an active entry, and gives a bundle exactly if that entry is the bundle itself or a manifest whose chunks are all present and join to it. |
| `CodexKeyring.ActivatedOutcome` | src/netsage/ai/providers/openai_codex/auth.py:117-135 | Once the active entry names a generation whose chunks are all stored, `load` decodes exactly their concatenation. |
| `CodexKeyring.TokenStore.WriteChunks` | src/netsage/ai/providers/openai_codex/auth.py:69-115 | Stores the chunks in order up to the first failing call and changes nothing outside that generation, at any moment. |
| `CodexKeyring.TokenStore.DiscardChunks` | src/netsage/ai/providers/openai_codex/auth.py:194-207 | Rollback removes chunks of one generation only; without faults it removes all of them. |
| `CodexKeyring.TokenStore.DropStale` | src/netsage/ai/providers/openai_codex/auth.py:69-115 | Removing the superseded generation changes the outcome of `load` at no moment, whatever fails. |
| `CodexKeyring.TokenStore.Save` | src/netsage/ai/providers/openai_codex/auth.py:69-115 | After every keyring call `load` gives the old outcome, and from the activating call on the new one; new if the save returns, old if it raises; without faults it returns exactly for texts of 1 to 64,000 characters, and clean stores stay clean. |
| `CodexKeyring.TokenStore.LoadBundle` | src/netsage/ai/providers/openai_codex/auth.py:117-135 | The reading method returns what the stored entries mean; any other error comes from a failing keyring call. |
| `CodexKeyring.TokenStore.DeleteChunks` | src/netsage/ai/providers/openai_codex/auth.py:137-161 | Removing the live chunks one by one leaves the old outcome or an invalid one at every call; a usable bundle stays usable if and only if no entry changed. |
| `CodexKeyring.TokenStore.Delete` | src/netsage/ai/providers/openai_codex/auth.py:137-161 | At every call of a removal `load` gives the old outcome, an invalid one or "not authenticated". A successful removal of a usable bundle shows an invalid one in between if and only if the active entry is a manifest, and an interrupted one keeps the bundle if and only if it changed nothing; without faults a clean store ends empty. |
| `CodexKeyring.RollbackKeepsBundle` | src/netsage/ai/providers/openai_codex/auth.py:69-115 | Rolling back a partly written generation restores a usable outcome if and only if that generation is not the live one. |
| `CodexKeyring.Perform` | src/netsage/ai/providers/openai_codex/auth.py:69-161 | At every call of one save or delete `load` gives the bundle active before, nothing usable, or, from a returning save only, the bundle being saved; the next active bundle follows. |
| `CodexKeyring.Session` | src/netsage/ai/providers/openai_codex/auth.py:69-161 | Over any sequence of saves and deletes with faults anywhere and no generation reused, at every call of each operation `load` gives the bundle last activated before it, the one that this very operation activates, or nothing usable; at the end the last activated one or nothing usable. Fault-free runs leave exactly the live generation. |
| `CodexKeyring.ActiveIsWhole` | src/netsage/ai/providers/openai_codex/auth.py:69-161 | The bundle last activated is the initial outcome or exactly the bundle of some returned save. |
| `TokenRefresh.Reachable` | src/netsage/ai/providers/openai_codex/auth.py:321-335 | Over all interleavings, only the lock holder refreshes, it presented the bundle still stored, and every refresh and save in the log refers to the bundle stored at that moment. |
| `TokenRefresh.MutualExclusion` | src/netsage/ai/providers/openai_codex/auth.py:321-335 | At most one refresh is in flight. |
| `TokenRefresh.NeverPresentedAgain` | src/netsage/ai/providers/openai_codex/auth.py:321-335 | A bundle whose successor was saved is presented again only if the server issued the same bundle again in between. |
| `TokenRefresh.ForwardClockStaysStale` | src/netsage/ai/providers/openai_codex/auth.py:321-341 | If the clock never goes back, a bundle that is stale at the start stays stale. |
| `TokenRefresh.SharedStaleBundle` | src/netsage/ai/providers/openai_codex/auth.py:321-335 | Callers that start on one bundle that stays stale share one refresh as long as refreshing succeeds and the result stays current. |
| `TokenRefresh.ExactlyOneRefresh` | src/netsage/ai/providers/openai_codex/auth.py:321-335 | Under those conditions any returned caller has the one renewed bundle, after exactly one presentation and one save. |
| `TokenRefresh.ProceedsExactly` | src/netsage/ai/providers/openai_codex/auth.py:321-335 | A caller that gets the lock raises if no complete bundle is stored, returns the stored one if it outlives now by more than the skew, and refreshes it otherwise. |
| `TokenRefresh.RefreshesExactly` | src/netsage/ai/providers/openai_codex/auth.py:321-335 | A refresh replaces the stored bundle and is returned exactly if it is complete and can be saved. |
| `TokenRefresh.ReturnedWasStored` | src/netsage/ai/providers/openai_codex/auth.py:321-335 | In every run, what a caller gets was complete and stored at some moment. |
| `ShellTokens.SplitWritten` | src/netsage/drivers/fortios/parsers.py:546-550 | Splitting gives back the texts of any words, made of bare, escaped, single-quoted and double-quoted stretches in any mix, with any separators between them. |
| `ShellTokens.SplitExactly` | src/netsage/drivers/fortios/parsers.py:546-550 | A text is accepted if and only if it is some list of words so written, and then their texts are the tokens. |
| `ShellTokens.SpelledMeans` | src/netsage/drivers/fortios/parsers.py:546-550 | Any tokens, whatever characters they hold, can be spelled bare or in double quotes and are split into themselves. |
| `ConfigParser.ParseConfigBlocks` | src/netsage/drivers/fortios/parsers.py:424-469 | The strict reader loop computes the line automaton, its containment test and its error cases. |
| `ConfigParser.ParseConfigBlocksLoosely` | src/netsage/drivers/fortios/parsers.py:472-533 | The loose reader loop computes its line automaton. |
| `ConfigDocuments.QuotedLineNeverHeader` | src/netsage/drivers/fortios/parsers.py:536-543 | A `set` or `edit` line that ends in a quote never matches a section header, whatever it quotes. |
| `ConfigDocuments.KeywordNeverHeader` | src/netsage/drivers/fortios/parsers.py:536-543 | `next` and `end` never match a section header. |
| `HeaderMatching.HeaderMatchesExactly` | src/netsage/drivers/fortios/parsers.py:536-543 | A line matches a section header if and only if, up to case and white space, the header's words begin it or end it. |
| `Text.WordsOfJoin` | src/netsage/drivers/fortios/parsers.py:536-543 | Splitting at white space undoes joining words that hold none. |
| `ConfigDocuments.StrictReadsSection` | src/netsage/drivers/fortios/parsers.py:424-469 | From inside a section, reading well-formed entries with arbitrarily deep nested blocks appends exactly their meaning, or raises their first error. |
| `ConfigDocuments.StrictReadsDocument` | src/netsage/drivers/fortios/parsers.py:424-469 | Noise before the header and anything after the closing `end` do not matter to the strict reader. |
| `ConfigDocuments.LooseReadsDocument` | src/netsage/drivers/fortios/parsers.py:472-533 | The loose reader gives the same meaning on a single interface section. |
| `ConfigDocuments.ReadersAgree` | src/netsage/drivers/fortios/parsers.py:424-533 | On every well-formed single-section interface document both readers return the same blocks or the same error. |
| `ConfigRoundTrip.PrintedSection` | src/netsage/drivers/fortios/parsers.py:424-469 | Entries printed with words of any spelling form a well-formed section whose meaning is the texts of those words, the first word of an `edit` line being the name and the last `set` of a key winning. |
| `ConfigRoundTrip.SpelledLine` | src/netsage/drivers/fortios/parsers.py:546-550 | A line of tokens spelled bare or quoted is read back as their texts in any indentation, and never taken for a header if its last token is quoted. |
| `ConfigRoundTrip.NormalizeIndented` | src/netsage/drivers/fortios/parsers.py:577-578 | Indentation and trailing white space around a line are not read. |
| `ConfigRoundTrip.StrictRoundTrip` | src/netsage/drivers/fortios/parsers.py:424-469 | Printing any entries, their names and settings bare, quoted or escaped in any mix, with nested blocks, in any indentation, with noise around and under any matching header line, and parsing gives back exactly those entries in order, if and only if the folded text contains the header literally. |
| `ConfigRoundTrip.LooseRoundTrip` | src/netsage/drivers/fortios/parsers.py:472-533 | The loose reader gives the entries back without that condition. |
| `ConfigRoundTrip.TabbedHeaderRefused` | src/netsage/drivers/fortios/parsers.py:424-429 | With any blank of the header replaced by a tab the line still matches the header, and the text is refused as lacking it. |
| `ConfigRoundTrip.PrintedTextRoundTrip` | src/netsage/drivers/fortios/parsers.py:424-469 | A section printed under its header in any indentation, with unrelated lines before and any lines after, is read back exactly, with no condition on the text. |
| `ConfigRoundTrip.PrintedTextLooseRoundTrip` | src/netsage/drivers/fortios/parsers.py:472-533 | The same for the loose reader on an interface section that ends the text. |
| `StrayBlocks.StrayEntriesTaken` | src/netsage/drivers/fortios/parsers.py:424-533 | Whatever readable entries a nested block after `next` holds, the strict reader takes none of them and the loose reader takes them all for entries of the section. |
| `StrayBlocks.StrayLinesExactly` | src/netsage/drivers/fortios/parsers.py:424-533 | For any lines and nested blocks between an entry closed by `next` and more entries, the strict reader passes over them, and the readers agree if and only if no line among them, at any depth, is an `edit` line. |
| `StrayBlocks.TrailingLinesExactly` | src/netsage/drivers/fortios/parsers.py:424-533 | Whatever well-nested lines follow the section, the strict reader gives the section's meaning; the readers agree if and only if the section has an error or no `edit` line follows, at any depth, or outside nested blocks if the section has no entry. |
| `ScopeScanner.ContextDefinitions` | src/netsage/drivers/fortios/catalog/source.py:518-604 | The scanning loop over all roots computes the line recursion with its stack and seen set. |
| `ScopeScanner.ScanRoot` | src/netsage/drivers/fortios/catalog/source.py:518-604 | The inner loop over the lines of one root. |
| `ScopeScanner.DefinedAs` | src/netsage/drivers/fortios/catalog/source.py:518-604 | What is recorded of a line, and that it is destructive exactly for `delete` and `purge` commands. |
| `ScopeScanner.ScansNodes` | src/netsage/drivers/fortios/catalog/source.py:518-604 | A well-nested stretch records its preorder listing, scoped by the enclosing path, and leaves the stack as it was. |
| `ScopeScanner.ScansTree` | src/netsage/drivers/fortios/catalog/source.py:518-604 | The scan of a root stops at the root's own `end`. |
| `ScopeScanner.FirstUsesExact` | src/netsage/drivers/fortios/catalog/source.py:518-604 | The recorded (scope, syntax) keys are distinct and are exactly the first uses. |
| `ScopeScanner.ScopeFidelity` | src/netsage/drivers/fortios/catalog/source.py:518-604 | Well-nested documented trees are scanned to their preorder listings minus later repeats of a (scope, syntax) pair. |
| `ScopeScanner.FaithfulExactly` | src/netsage/drivers/fortios/catalog/source.py:518-604 | For all lists of documented trees the scan emits those listings if and only if no nested block carries the key of its root. |
| `ScopeScanner.ScopeInjective` | src/netsage/drivers/fortios/catalog/source.py:676-684 | Joining a stack of literal paths with " > " is injective. |
| `ScopeScanner.RepeatedRootClosesScope` | src/netsage/drivers/fortios/catalog/source.py:518-604 | A nested `config` with the root's key opens no scope, so its `end` closes the enclosing one: the root, and the scan is over, or an inner scope, and the rest is recorded one scope too high. |
| `CommandRendering.Pieces` | src/netsage/drivers/fortios/catalog/source.py:52 | The placeholder matches and the text between them partition the syntax. |
| `CommandRendering.ArgumentDefinitions` | src/netsage/drivers/fortios/catalog/source.py:831-876 | The extraction loop yields one argument per non-blank placeholder, in order. |
| `CommandRendering.ArgumentsDescribed` | src/netsage/drivers/fortios/catalog/source.py:831-876 | Each argument stands for its placeholder and has the kind, choices, bounds and flags described for the text in it. |
| `CommandRendering.NamesDistinctExactly` | src/netsage/drivers/fortios/catalog/source.py:831-876 | The names numbered from a list of base names are pairwise distinct if and only if no base name reads like another base name with the number of one of its repetitions. |
| `CommandRendering.ExtractedNamesDistinctExactly` | src/netsage/drivers/fortios/catalog/source.py:831-876 | The same exact condition for the arguments extracted from any syntax. |
| `CommandRendering.NamesMayCollide` | src/netsage/drivers/fortios/catalog/source.py:831-876 | Extracting `<a> <a> <a 2>` names its second and third argument alike. |
| `CommandRegistry.NumericRoundTrip` | src/netsage/drivers/fortios/catalog/registry.py:119-137 | A number is accepted exactly within its bounds, and the rendered text denotes the number supplied. |
| `ArgumentTexts.RenderedTextExactly` | src/netsage/drivers/fortios/catalog/registry.py:119-191 | For every other kind: which values are accepted, exactly, and the text rendered: texts unchanged, hardware addresses in lower case with colons, addresses and networks as printed; sensitive arguments never. |
| `ArgumentTexts.HostnameExactly` | src/netsage/drivers/fortios/catalog/registry.py:167-175 | A host name is accepted if and only if it is at most 253 characters of valid labels separated by dots, with any dots after them. |
| `CommandRegistry.RenderedClean` | src/netsage/drivers/fortios/catalog/registry.py:119-191 | The text of an accepted value is free of brackets and NUL if and only if the zone that its kind prints, if any, is: the zone of the address for the IPv6 and the general IP kind, the zone of the network address for the network kind. |
| `CommandRegistry.BracketedZonePrinted` | src/netsage/drivers/fortios/catalog/registry.py:158-162 | A network such as `fe80::%{x}/64` is accepted and printed with its zone, whatever the zone holds. |
| `CommandRegistry.BracketedValueMisplaces` | src/netsage/drivers/fortios/catalog/registry.py:94-101 | A value that holds a later placeholder receives that placeholder's value, and the placeholder itself stays, so rendering is not positional. |
| `CommandRegistry.ReplaceAllIsSubstitute` | src/netsage/drivers/fortios/catalog/registry.py:94-101 | Repeated first-occurrence replacement in argument order equals positional substitution, also when placeholders repeat. |
| `CommandRegistry.CheckNames` | src/netsage/drivers/fortios/catalog/registry.py:86-93 | The name checks accept exactly the argument maps with all required and no unknown names. |
| `CommandRegistry.FillIn` | src/netsage/drivers/fortios/catalog/registry.py:94-101 | The replacement loop fails exactly on an unaccepted value and otherwise performs all replacements. |
| `CommandRegistry.BracketsLeft` | src/netsage/drivers/fortios/catalog/source.py:831-876 | A bracket survives substitution exactly if the syntax has a blank placeholder. |
| `CommandRegistry.RenderingIsPositional` | src/netsage/drivers/fortios/catalog/registry.py:82-105 | For every renderable definition and accepted values whose printed zones are clean the result is the positional substitution, white space normalised, free of control characters, with a bracket exactly for blank placeholders. |
| `CommandRegistry.Render` | src/netsage/drivers/fortios/catalog/registry.py:82-105 | Which of the refusals applies, each exactly; otherwise the squashed replacement text, refused exactly if it holds a control character, and the positional rendering if zones are clean. |
| `CatalogPromotion.DeduplicateIds` | src/netsage/drivers/fortios/catalog/source.py:701-718 | The loop computes the renaming of later users of an identifier, or fails when the renamed one is taken. |
| `CatalogPromotion.DeduplicationKeeps` | src/netsage/drivers/fortios/catalog/source.py:701-718 | Order, length and every other field are kept; identifiers become unique and stay valid (at most 768 characters). |
| `CatalogPromotion.RenamedExactly` | src/netsage/drivers/fortios/catalog/source.py:701-718 | A definition is renamed if and only if its identifier was taken by one before it. |
| `CatalogPromotion.FailsExactly` | src/netsage/drivers/fortios/catalog/source.py:701-718 | De-duplication fails if and only if some definition finds both its identifier and the renamed one taken. |
| `CatalogPromotion.DisambiguatedValid` | src/netsage/drivers/fortios/catalog/models.py:12 | A renamed identifier still has a valid form and length. |
| `CatalogPromotion.DistinctIdsPass` | src/netsage/drivers/fortios/catalog/source.py:701-718 | Definitions with distinct identifiers pass unchanged. |
| `CatalogPromotion.ApplyExecutionDispositions` | src/netsage/drivers/fortios/catalog/source.py:721-758 | The pass gives each definition its disposition relative to the operational paths of the whole list. |
| `CatalogPromotion.PromotionKeepsValid` | src/netsage/drivers/fortios/catalog/models.py:151-173 | Unvalidated copies of valid definitions still satisfy the validator. |
| `CatalogPromotion.ExecutableExactly` | src/netsage/drivers/fortios/catalog/source.py:761-828 | A definition becomes executable exactly if it is read-only, outside configuration, renderable, no command-tree parent, and has none of the listed traits. |
| `CatalogPromotion.DispositionExactly` | src/netsage/drivers/fortios/catalog/source.py:721-828 | Which commands are ruled out, which ask for review, and the reason, which is that of the first objection; other classes stay unchanged. |
| `CatalogPromotion.CoverageValidExactly` | src/netsage/drivers/fortios/catalog/models.py:210-236 | Every equation of the coverage validator holds of the computed record, except one that holds exactly if sanitized-text parsers and sanitized-text execution are equally many. |
| `CatalogPromotion.ValidDefinitionCanBreakTotals` | src/netsage/drivers/fortios/catalog/models.py:210-236 | A definition that passes its own validator can break the totals. |
| `CatalogPromotion.PublishedCatalogValid` | src/netsage/drivers/fortios/catalog/source.py:1070-1133 | De-duplicating, promoting and sorting extracted definitions gives a manifest that every validator accepts. |
| `HaHistory.MembersNumberedByAppearance` | src/netsage/drivers/fortios/semantic/ha_history.py:319-326 | Member references number the distinct case-folded members by first appearance, on every line about them. |
| `HaHistory.SameReferenceIffSameMember` | src/netsage/drivers/fortios/semantic/ha_history.py:319-326 | Two lines get the same reference if and only if they are about the same member up to case. |
| `HaHistory.SafeTokenExactly` | src/netsage/drivers/fortios/semantic/ha_history.py:329-333 | A token is what brackets and quotes wrap, if and only if it has 1 to 128 safe characters. |
| `HaHistory.EventByMessage` | src/netsage/drivers/fortios/semantic/ha_history.py:154-316 | Which message becomes which kind, role, interface and states; the last number after a link change is 1 for up and 0 for down. |
| `HaHistory.RejoinedExactly` | src/netsage/drivers/fortios/semantic/ha_history.py:221-270 | A new-member line is a rejoin if and only if an earlier line lost or left the member with no new-member line for it in between, dropped lines included. |
| `HaHistory.KeptExactly` | src/netsage/drivers/fortios/semantic/ha_history.py:84-103 | An event survives if and only if it is unrecognized or no earlier event has its key; survivors stay in order. |
| `HaHistory.SameKeyExactly` | src/netsage/drivers/fortios/semantic/ha_history.py:336-345 | Two events have one key if and only if they agree in moment, kind, member, role, states and, up to case, interface. |
| `HaHistory.KeptKeysDistinct` | src/netsage/drivers/fortios/semantic/ha_history.py:336-345 | Recognized survivors have pairwise different keys. |
| `HaHistory.DroppedHasTwin` | src/netsage/drivers/fortios/semantic/ha_history.py:97-101 | Every dropped line has an earlier kept line with the same key. |
| `HaHistory.BoundedKeepsWholeLines` | src/netsage/drivers/fortios/semantic/ha_history.py:73-78 | Cutting an oversized source at its last line end gives a prefix of its lines. |
| `HaHistory.EventsValid` | src/netsage/models/ha_diagnostics.py:56-82 | Every event has a member reference of the required pattern and an interface of 1 to 128 characters, or none. |
| `HaHistory.Members.EventOf` | src/netsage/drivers/fortios/semantic/ha_history.py:154-293 | The in-place event automaton performs one step of the model. |
| `HaHistory.Members.Reference` | src/netsage/drivers/fortios/semantic/ha_history.py:319-333 | The alias dictionary is updated exactly for a new safe token. |
| `HaHistory.CollectEvents` | src/netsage/drivers/fortios/semantic/ha_history.py:84-103 | The line loop yields exactly the surviving events of the automaton; kept and dropped lines add up. |
| `HaHistory.ParseHistory` | src/netsage/drivers/fortios/semantic/ha_history.py:66-127 | Refused exactly as the screening of the output says, with its reason; otherwise the history is not empty, holds the first 2,048 survivors, counts and flags agree with them, the model validator holds, without truncation events plus duplicates are the non-blank lines, and it is ordered by time stamps exactly if all events have one. |
| `HaHistory.AcceptedHasEvents` | src/netsage/drivers/fortios/semantic/ha_history.py:72-103 | An output that passes the screening has at least one line and one surviving event, also when it is cut. |
| `HaEpisodes.GroupEvents` | src/netsage/investigations/ha_correlation.py:192-202 | The greedy loop computes the grouping. |
| `HaEpisodes.GroupsSplit` | src/netsage/investigations/ha_correlation.py:192-202 | The groups are non-empty runs of the sorted events with in-window gaps inside and undefined or larger gaps between. |
| `HaEpisodes.SplitUnique` | src/netsage/investigations/ha_correlation.py:192-202 | There is only one such split. |
| `HaEpisodes.LinkedExactly` | src/netsage/investigations/ha_correlation.py:203-211 | Neighbours are linked if and only if their stamps compare and the later is at most the window after the earlier, or before it. |
| `HaEpisodes.DatedExactly` | src/netsage/investigations/ha_correlation.py:175-201 | Episodes are made of the dated events of all kinds but four. |
| `HaEpisodes.SortedUnique` | src/netsage/investigations/ha_correlation.py:197-201 | Two sorted lists of the same events with distinct indices are equal. |
| `HaEpisodes.PartitionIsTheSplit` | src/netsage/investigations/ha_correlation.py:175-194 | The partition of a history is the unique split of its sorted dated incident events, each in exactly one episode. |
| `HaEpisodes.PartitionOrderIndependent` | src/netsage/investigations/ha_correlation.py:175-201 | The partition does not depend on the order of the input events. |
| `HaEpisodes.SameGroupIffJoined` | src/netsage/investigations/ha_correlation.py:175-211 | Two positions share an episode if and only if every gap between neighbours from one to the other is in the window. |
| `HaEpisodes.WiderWindowMerges` | src/netsage/investigations/ha_correlation.py:175-211 | A larger window never separates two events and never yields more episodes. |
| `HaEpisodes.EpisodesAreChainsIffChronological` | src/netsage/investigations/ha_correlation.py:197-211 | For all windows, sharing an episode equals being linked by a chain of in-window gaps, if and only if the text order is chronological on each clock without interleaving. |
| `HaEpisodes.EpisodesAreChainsAtWindowExactly` | src/netsage/investigations/ha_correlation.py:197-211 | At one window, sharing an episode equals being linked by a chain of in-window gaps, if and only if neighbours are linked exactly where a pair at most the window apart lies on both sides of the cut between them. |
| `HaEpisodes.OneClockChronological` | src/netsage/investigations/ha_correlation.py:197-211 | Naive stamps, or stamps with one offset, are chronological in text order. |
| `HaEpisodes.UnchainedEventsCanShareAnEpisode` | src/netsage/investigations/ha_correlation.py:211 | With mixed offsets two events two hours apart share an episode. |
| `HaEpisodes.OneInstantCanBeInTwoEpisodes` | src/netsage/investigations/ha_correlation.py:201 | With mixed offsets two events of one instant fall into two episodes. |
| `HaEpisodes.AnyNumberOfEpisodes` | src/netsage/models/ha_diagnostics.py:219 | There are histories with any number of episodes, so the bound of 512 can be exceeded. |
| `HaEpisodes.Episodes` | src/netsage/investigations/ha_correlation.py:175-235 | The method returns one numbered record per group of the partition. |
| `HaEpisodes.EpisodeExactly` | src/netsage/investigations/ha_correlation.py:212-235 | A record has the source indices in order, the first and last stamp, and exactly the kinds, members and interfaces of its events. |
| `HaCorrelation.HasInterfaceFlap` | src/netsage/investigations/ha_correlation.py:238-248 | The state-collecting loop is true exactly if one interface, up to case, both went down and was restored. |
| `HaCorrelation.Found` | src/netsage/investigations/ha_correlation.py:115-120 | Lookup by case-folded name finds a collected interface exactly if one exists. |
| `HaCorrelation.Correlate` | src/netsage/investigations/ha_correlation.py:47-172 | Refused exactly above 512 episodes; each of the eight patterns is reported exactly on its observations, the domains are those of the patterns, and each of the six kinds of missing evidence is named exactly when it is missing, once and in the fixed order. |
| `HaCorrelation.RepeatedInstabilityHasCause` | src/netsage/investigations/ha_correlation.py:83-104 | Repeated instability never stands alone, so the fault domain is UNKNOWN exactly if no pattern was observed. |
| `HaDiagnosis.BuildFindings` | src/netsage/investigations/ha_diagnosis.py:47-272 | The appended findings are exactly those whose condition holds, in table order, with their severity, strength and citations. |
| `HaDiagnosis.HoldingIsCited` | src/netsage/investigations/ha_diagnosis.py:310-320 | A finding that holds is reported and the diagnosis cites its evidence. |
| `HaDiagnosis.CitationsGiven` | src/netsage/investigations/models.py:152-161 | Findings and diagnosis cite nothing but the items the assessment was given. |
| `HaDiagnosis.ConfirmedJustified` | src/netsage/investigations/ha_diagnosis.py:310-390 | CONFIRMED cites a status with an out-of-sync member or degraded health, or a history with a restart, boot or process restart. |
| `HaDiagnosis.StrongJustified` | src/netsage/investigations/ha_diagnosis.py:310-390 | STRONG cites a history and an interface collection that name one interface in common, up to case. |
| `HaDiagnosis.DiagnosedExactly` | src/netsage/investigations/ha_diagnosis.py:310-390 | There is a diagnosis if and only if status or history shows a fault, and it always cites evidence. |
| `HaDiagnosis.StrengthByObservation` | src/netsage/investigations/ha_diagnosis.py:310-390 | Restarts give CONFIRMED, else a suspect heartbeat link STRONG, else lost communication PROBABLE, else a faulty status CONFIRMED, else membership changes PROBABLE, else none. |
| `HaExpectations.FindingsExpected` | src/netsage/investigations/ha_diagnosis.py:47-272 | In terms of the status, events, checksum and interfaces alone: each of the fifteen findings is present exactly on its observation, once, in order, with its severity, strength and exactly its citations. |
| `HaExpectations.DiagnosisExpected` | src/netsage/investigations/ha_diagnosis.py:310-390 | The diagnosis has the strength that the observations call for, or there is none, and it cites exactly what the findings cite, each id once. |
| `HaInvestigation.AssessmentSound` | src/netsage/investigations/models.py:96-169 | Any assessment built from collected items gives a report that satisfies the model validators and is justified by its citations. |
| `HaInvestigation.Conclude` | src/netsage/investigations/fortios.py:206-256 | Refused exactly above 512 episodes; otherwise the report is the one the items call for: findings, diagnosis, INSUFFICIENT exactly for a truncated status without another diagnosis, and status by failures and severities; and it is sound. |
| `HaInvestigation.Diagnostics` | src/netsage/investigations/fortios.py:179-205 | The second stage, and the interface stage exactly if the history calls for it; history, checksum and interfaces are the first such payload of their stage. |
| `HaInvestigation.InvestigateHa` | src/netsage/investigations/fortios.py:128-256 | Against any collector: which operations are collected, the later stages exactly when the observations require them; the run raises exactly above 512 episodes; otherwise the report is the one the first payloads of each stage call for, INSUFFICIENT and empty exactly without a status, lists all collected evidence and failures in order, passes every validator, and its diagnosis is justified. |
| `LocalState.ReplacementKeepsIntegrity` | src/netsage/state/trust.py:111-118 | Replacing a trust record keeps integrity if and only if it has the address of the device stored under its name. |
| `LocalState.Stores.LoadInventory` | src/netsage/state/application.py:55-77 | Accepts exactly the states in which every device resolves, hence every state with integrity. |
| `LocalState.Stores.OnboardDevice` | src/netsage/onboarding/service.py:80-118 | Success adds exactly the device and its trust record, and without a fault it fails exactly on the unknown profile, the taken name, the failed test or the known host; integrity holds between the writes; a failure leaves the stores unchanged, or an unused trust record if the rollback failed as well. |
| `LocalState.Stores.OffboardDevice` | src/netsage/onboarding/service.py:177-184 | Success removes device and trust record; with at most one fault a failure leaves the stores unchanged; integrity holds between the writes. |
| `LocalState.Stores.ReplaceTrust` | src/netsage/onboarding/service.py:193-201 | Changes only the trust record, and keeps integrity for a stored device. |
| `LocalState.Stores.AddPasswordProfile` | src/netsage/credentials/keyring_provider.py:134-149 | Success adds profile and secret; a single fault before anything was stored changes nothing, and after the secret was stored it leaves everything as it was except that the name has no secret, hence unchanged if and only if there was no orphaned secret; integrity holds between the writes. |
| `LocalState.Stores.RemoveUnusedProfile` | src/netsage/credentials/keyring_provider.py:151-172 | A profile that a device refers to is never removed; with at most one fault a failure leaves the stores unchanged. |
| `LocalState.Stores.RotateSecret` | src/netsage/credentials/keyring_provider.py:174-178 | Changes only the secret, and only on success. |
| `LocalState.Stores.AddDevice` | src/netsage/inventory/store.py:51-58 | Refuses duplicates; a failing write changes nothing. |
| `LocalState.Stores.RemoveDevice` | src/netsage/inventory/store.py:60-67 | Returns the removed device; a failing write changes nothing. |
| `LocalState.Stores.AddHost` | src/netsage/state/trust.py:103-109 | Refuses duplicates; a failing write changes nothing. |
| `LocalState.Stores.DropHost` | src/netsage/state/trust.py:120-128 | Removes the record if present; a failing write changes nothing. |
| `LocalState.Stores.AddProfile` | src/netsage/credentials/profiles.py:88-96 | Refuses duplicates; a failing write changes nothing. |
| `LocalState.Stores.RemoveProfile` | src/netsage/credentials/profiles.py:98-105 | Refuses unknown names; a failing write changes nothing. |
| `LocalState.Stores.DropSecret` | src/netsage/credentials/keyring_provider.py:88-96 | Deletes the secret, or raises or passes over a refused deletion without effect. |
| `LocalState.Perform` | src/netsage/onboarding/service.py:80-201 | Each command keeps integrity, and when nothing fails has exactly its objection or its effect. |
| `LocalState.Session` | src/netsage/state/application.py:55-77 | From empty stores, over any commands and faults, every state between two writes has integrity and the inventory always loads; a fault-free run has exactly the effects of its commands, in order. |
| `Evidence.Broker.Register` | src/netsage/broker/core.py:71-76 | Forbidden and registered names are refused; nothing else changes. |
| `Evidence.Broker.Invoke` | src/netsage/broker/core.py:97-252 | The handler runs, once and on the given arguments, if and only if the tool is registered, a known device is named, the arguments lie between required and allowed, the capability is supported, and the tool is read-only or a diagnostic allowed by name; each refusal has the error of the first condition that fails; each outcome leaves its one audit event, or the audit sink itself failed, which the caller sees. |
| `Evidence.Broker.AiTools` | src/netsage/broker/core.py:77-95 | Exactly the registered tools that the device supports, the policy allows and the AI may see. |
| `Evidence.EvidenceStore.Add` | src/netsage/evidence/store.py:37-45 | Evidence is appended if and only if it is safe and its identifier is new; identifiers stay distinct. |
| `Evidence.Collector.Collect` | src/netsage/evidence/collector.py:39-95 | One broker call with the device added; the result is the failure of the first phase that fails, and otherwise the evidence, which is stored; nothing is stored on a failure. |
| `AgentRuntime.SignatureInjective` | src/netsage/agent/runtime.py:169-170 | For all tools and all destination strings, JSON escapes and zones with braces included, call signatures are equal if and only if tool and arguments are. |
| `AgentRuntime.RememberedRepeats` | src/netsage/agent/runtime.py:169-182 | A call is refused as a repetition exactly if an executed call had its tool and arguments. |
| `AgentRuntime.AcceptedExactly` | src/netsage/agent/runtime.py:287-320 | A final answer is accepted if and only if it cites stored evidence, covers every CONFIRMED finding, upholds a CONFIRMED diagnosis, and does not escalate on the deterministic evidence alone. |
| `AgentRuntime.AcceptedIsGrounded` | src/netsage/agent/runtime.py:287-320 | An accepted answer stronger than the deterministic diagnosis cites evidence that a successful call of this run brought. |
| `AgentRuntime.Runtime.Execute` | src/netsage/agent/runtime.py:195-241 | One result per call; unknown tools and ill-fitting destinations are answered without contact, every other call is one broker call with the right arguments; only a successful one brings evidence, of this investigation. |
| `AgentRuntime.Runtime.ExecuteCalls` | src/netsage/agent/runtime.py:160-192 | The calls of one response in order, stopping exactly at the first that reuses an executed id or repeats an executed call. |
| `AgentRuntime.Runtime.Conclude` | src/netsage/agent/runtime.py:136-148 | A final answer completes the run exactly if it is sound and no ungrounded escalation; otherwise the run stops with the category of the condition that failed. |
| `AgentRuntime.Runtime.CallTools` | src/netsage/agent/runtime.py:153-193 | One response with tool calls executes them all within the limits, or ends the run for the reason that applies. |
| `AgentRuntime.Runtime.Run` | src/netsage/agent/runtime.py:90-193 | For every provider, and however the run ends, exceptions included: step, per-step and total bounds, the tools offered are those the policy allows the AI, exactly the fitting calls reach the collector, each with one audit event unless the sink lost it, and handlers run for nothing else. The run reaches the step limit if and only if all its requests were made and answered by executing their calls; otherwise the last response alone decides how it ends. A report comes with pairwise distinct call ids and signatures and one result per executed call plus one exactly on REPEATED_TOOL_CALL; completed answers cite stored evidence, all evidence of CONFIRMED findings, and new evidence if they escalate. |
| `ReportHistory.Investigate` | src/netsage/investigations/fortios.py:810-835 | Any adaptive workflow on a fresh id is followed until it stops or the limit is reached, and handlers run for nothing else: the report's evidence ids are the store's listing in order, each envelope has its own SUCCESS event, in the same order, and each collection one event unless the sink lost it. |
| `ReportHistory.History.Add` | src/netsage/history/investigations.py:68-86 | All or nothing; refused exactly on a mismatch, on foreign evidence, on a failing database or unsafe data, and otherwise exactly if the investigation or some evidence is known; success adds exactly the report and its evidence. |
| `ReportHistory.History.Remove` | src/netsage/history/investigations.py:174-181 | Removes the report with its evidence rows exactly if it is known and the database does not fail, or changes nothing. |
| `ReportHistory.RemoveUndoesAdd` | src/netsage/history/investigations.py:68-181 | Removing a freshly added investigation restores both tables. |
| `ReportHistory.InvestigateAndPersist` | src/netsage/onboarding/service.py:203-252 | After any workflow the mismatch checks of `add` cannot fire; unless the database fails or data is unsafe the report is stored exactly if investigation and evidence are new, with exactly its evidence. |
| `EventStream.ReadStructuredOutput` | src/netsage/ai/providers/openai_codex/client.py:156-210 | The incremental loop equals grouping lines into events and then interpreting them, with the response limit cutting at a line. |
| `EventStream.ReadExactly` | src/netsage/ai/providers/openai_codex/client.py:156-210 | Reading fails with the error of the first event that offends, else at the response limit, else it succeeds if and only if what is left over reads and a completion was dispatched or is left over, and then gives what the events stand for. |
| `EventStream.DecodedExactly` | src/netsage/ai/providers/openai_codex/client.py:169-221 | Which payload is which event. |
| `EventStream.CompletedOutputText` | src/netsage/ai/providers/openai_codex/client.py:223-244 | The nested loops collect all output texts of a completed event in order, or fail when there is none. |
| `EventStream.TextsExactly` | src/netsage/ai/providers/openai_codex/client.py:223-244 | The texts of an output are those of the text parts of its message items, and nothing else. |
| `EventStream.Apply` | src/netsage/ai/providers/openai_codex/client.py:169-197 | One dispatched event: parts, counter, completion flag and each error. |
| `EventStream.CounterIsExact` | src/netsage/ai/providers/openai_codex/client.py:156-197 | The running counter is the UTF-8 size of the joined parts and at most 1,000,000. |
| `EventStream.OutputWithinLimitExactly` | src/netsage/ai/providers/openai_codex/client.py:202-210 | A result above 1,000,000 bytes comes exactly from an unterminated completed event without earlier output. |
| `EventStream.PartsAreMeaning` | src/netsage/ai/providers/openai_codex/client.py:169-197 | The parts are all deltas in order, also those after completion, preceded by the first completed event's own text if no delta came before it. |
| `EventStream.StreamEndingAtCompletion` | src/netsage/ai/providers/openai_codex/client.py:156-210 | A stream that ends at a completion followed by a blank line yields all deltas, or the completed event's own text if there was none. |
| `EventStream.StreamBreakingOffAtCompletion` | src/netsage/ai/providers/openai_codex/client.py:202-210 | The same for a stream that breaks off within its only completed event. |
| `EventStream.ReturnImpliesCompletion` | src/netsage/ai/providers/openai_codex/client.py:202-210 | A normal return implies that a completed event was decoded. |
| `EventStream.FramingRoundTrip` | src/netsage/ai/providers/openai_codex/client.py:198-201 | Grouping gives back the data of any events printed with data lines, other fields and comments (section 9.2.5 of the WHATWG HTML standard). |
| `EventStream.ValueIsStandardExactly` | src/netsage/ai/providers/openai_codex/client.py:198-201 | A data value is the standard's (section 9.2.6) exactly if it has no further leading white space and is not [DONE]. |

## Left out

- SSH transport, paging, prompt handling, HTTP clients, provider selection, the command-line interface and packaging.
- The regular expressions of `semantic/ha_history.py` and of the redactors: the classifier and the redaction verdict are parameters or arbitrary.
- The other FortiOS workflows' findings (`investigations/fortios.py:258-745`); `ReportHistory.Investigate` covers what they collect and report, not what they conclude.
- `CodexKeyring.Session`: generations are not reused, as the source draws them at random; processes that use the keyring at the same time are not modelled.
- `TokenRefresh.ExactlyOneRefresh`: assumes that refreshing succeeds, that the old bundle stays stale and that the renewed one stays current for the rest of the run.
- `ConfigDocuments.ReadersAgree`: a single section with nothing after it and nested blocks only inside entries; outside that the readers can differ (`StrayLinesExactly` says when for lines between entries, `TrailingLinesExactly` for lines after the section).
- `StrayBlocks.TrailingLinesExactly`: trailing lines are well nested and hold no second header of the section.
- `ScopeScanner.FaithfulExactly`: the line classification before the scan and the selection of roots are parameters; of them it takes that a line's syntax determines its kind and key, that literal paths hold no ">" and that one root path has one key.
- `CommandRegistry.RenderingIsPositional`: printed zones hold no bracket and no NUL, since others can break it (`BracketedValueMisplaces`); how descriptions become argument kinds, bounds and choices is a parameter that takes choices from the placeholder.
- `CatalogPromotion.ExecutableExactly`: the word lists behind the traits are not modelled, only their verdicts.
- `CatalogPromotion.PublishedCatalogValid`: coverage counters that no validator equation mentions are omitted.
- `HaHistory.ParseHistory`: the two patterns by which an output reads like a refusal of the device are parameters; the device id, the parser metadata and the timestamp kind, which is determined by the time stamp, are omitted.
- `HaEpisodes.EpisodesAreChainsIffChronological`: windows are any number of microseconds, while the source accepts 1 to 3,600 seconds, so the "only if" half speaks of more windows than the source has; `EpisodesAreChainsAtWindowExactly` is about each window by itself.
- `HaEpisodes.Episodes`: the sorted tuples of an episode record are sets.
- `HaCorrelation.Correlate`: pattern and domain order, the window check and the device identity checks, which cannot fail for evidence of one device, are omitted.
- `HaInvestigation.InvestigateHa`: the clock does not run backwards between start and completion; finding texts, the summary record and the missing-evidence labels of the report are omitted.
- `LocalState.Session`: one process at a time; sites, groups, the connection test and field validation of names and hosts are omitted, the latter happens before the first write.
- `Evidence.Broker.Invoke`: argument values are strings; durations, redacted arguments and details of audit events are omitted.
- `AgentRuntime.Runtime.Run`: what the provider context holds; building it may raise before any request, after earlier requests and calls as well. Other exceptions of the provider than its own error type are not modelled. Without a deterministic diagnosis the source has no escalation to compare, so none is stated.
- `AgentRuntime.Runtime.FailureStatus`: error types raised by handlers, the factory and the store are not distinguished, so such a failure is one of three statuses.
- `ReportHistory.History.Add`: column contents other than the keys; the schema check on connecting is one way for the database to fail.
- `EventStream.ReadStructuredOutput`: JSON decoding is a parameter; text with lone surrogates, on which encoding raises, is not representable.
- `status`, `configured`, version ranges, variant fallback, checksum comparison and report rendering: small members that would add nothing.
