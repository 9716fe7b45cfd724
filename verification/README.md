# Verified model of the LiteLLM menu configuration and proxy core

A Dafny 4.11 model of the logic behind the menu, the configuration editors and the
proxy, with proofs about it: the source-preserving TOML editor, the YAML expansion
limiter, the deployment fallback and the retry loop around it, the streams made up for
clients, saving and loading in the provider editor, the budget for inline images, the
SQL text splitter, the import drafts, the log rotation and applying two files together.

`dafny verify dfyconfig.toml` checks the whole project.

## Files

| files | what they model |
|---|---|
| `wrappers.dfy`, `python_text.dfy`, `fresh_names.dfy`, `scanner.dfy` | shared: options and results, Python's stripping and decimal texts, the search for a free name, a scanner driven by a step function |
| `toml_lexer.dfy`, `toml_composition.dfy`, `toml_boundaries.dfy`, `toml_grammar.dfy` | the statement lexer, how it behaves at statement boundaries, and a grammar of documents that it reads |
| `toml_keys.dfy`, `toml_values.dfy`, `toml_spelling.dfy`, `toml_readback.dfy` | writing keys, headers and values, every spelling in which keys and headers are read, and reading values back |
| `toml_edit.dfy`, `toml_set_results.dfy`, `toml_repeat.dfy`, `toml_remove.dfy`, `toml_remove_results.dfy`, `toml_texts.dfy` | the edits and what they do to the list of statements and to the text around them |
| `editor_files.dfy` | applying `config.toml` and `auth.json` together |
| `yaml_limits.dfy` | the one-pass check of a YAML event stream |
| `fallback.dfy`, `retry_loop.dfy` | choosing the next deployment, and the loop around an upstream call |
| `guarded_stream.dfy` | the stream that may be replaced by one retry |
| `response_events.dfy`, `search_rounds.dfy`, `search_collection.dfy` | made-up event streams, rounds of concurrent searches, what they collect, and a client that rebuilds the response |
| `provider_documents.dfy`, `provider_saving.dfy`, `provider_reload.dfy`, `provider_loading.dfy`, `provider_round_trip.dfy`, `provider_conservation.dfy`, `provider_exactly.dfy`, `provider_witness.dfy`, `provider_fields.dfy`, `provider_lookups.dfy`, `provider_appending.dfy` | saving the provider editor over two files, reading the texts back before they are written, and loading them again; what is saved of each model, where each entry is loaded to and what appending it changes |
| `image_urls.dfy`, `image_bounding.dfy`, `image_fixed_point.dfy`, `image_requests.dfy`, `image_second_pass.dfy`, `image_lost_reference.dfy`, `image_budget.dfy`, `image_choice.dfy` | inline images: sizes, compressing, targets, one pass over a request, what a second pass does, the budget of a whole request, and which JPEG each image becomes |
| `sql_text.dfy`, `import_drafts.dfy` | reading a database export, and the drafts an import builds |
| `log_rotation.dfy` | the bounded log |

## Where code and expectation differ

Each of these is stated as an exact condition, or with an input that shows it.

- A key or a table path with a DEL character (U+007F) is written as a JSON string that
  TOML does not allow, so it is never found again: setting such a key twice adds a second
  line. `TomlRepeat.SetTopLevelTwice` and `TomlRepeat.SetTableTwice` hold exactly
  without one.
- Removing a statement may put a CR at the end of the statement before it next to an LF
  that follows, and the two become one line ending. `TomlRemove.KeptUnchanged`
  says exactly when; `TomlRemoveResults.RemovalJoins` shows such texts. The blank line put
  before an appended table can join with a final CR in the same way.
- Anchors stay known across the documents of a YAML stream, so an alias may name
  an anchor of an earlier document (`YamlLimits.AcceptsExactly`).
- A failed apply does not restore `auth.json` when its own write failed after the rename,
  and old files are read with universal newlines, so a rollback rewrites CRLF as LF
  (`EditorFiles.AllOrNothing`). When `config.toml` cannot be put back, the loop still puts
  `auth.json` back, which leaves a new configuration with stale credentials; it is the only
  case in which one is ever seen (`EditorFiles.CredentialsComeFirst`).
- Anchors in the provider sections are made from names with other characters replaced by
  underscores, and only the anchors of one provider are compared before the text is made.
  YAML refuses a repeated anchor, and a save reads its text back before it writes
  anything, so providers whose anchors coincide cannot be saved at all, even under
  distinct names: `a b` and `a_b` (`ProviderReload.NamesMayClash`).
  `ProviderReload.SaveConfig` says exactly which saves go through; a new model can also find
  no id, but not among 128 models or fewer unless the draws repeat (`ProviderSaving.FewFindIds`).
- Loading what was saved gives every provider with all its keys and models back exactly
  when no two keys of a provider have the same value and no model uses a key whose value
  has white space around its text (`ProviderExactly.SaveThenLoadExactly`): keys are found
  again by their stripped values. `ProviderWitness.TwinsFail` gives saves with two keys of
  one value, which go through and lose a key.
- From every first deployment with an order, fallback tries each usable one exactly once,
  exactly when the list meets `Fallback.Identifies` (`Fallback.TriesAllExactly`): no usable
  deployment has the id of another one with an order, and a deployment with an order but
  without an id leaves no other usable one, or is not usable itself while one with
  another order is. The code handles deployments without ids and with shared ones, and
  repeats or skips some of them otherwise.
- When routing reports an empty pool though a deployment is left, nothing more is avoided
  and the same entry can be given again (`Fallback.ExhaustedRepeats`). The retry loop ends
  on the premise that routing reports an empty pool only when it is empty; in
  `RetryLoop.GenericHelper` the ending `Misreported` stands for the other case.
- A made-up stream leaves out entries that are not objects and streams only the first part
  of a message, so it rebuilds a response exactly when there are no such entries and every message
  has one part. A search action that finishes without an item leaves its output index
  open and the indices behind it are given twice (`SearchRounds.ResolveRounds`).
- A log record longer than the maximum is cut. The log is then a suffix of the history
  only if the older backups end what stood before the cut (`LogRotation.CutKeepsSuffix`);
  for records that are lines, only if no older backup is kept
  (`LogRotation.CutLineLosesText`).
- A text that holds the marker of a reference and is itself an oversized inline image
  loses the marker when it is compressed. If no preview is left then, a second pass has
  a lower target and compresses images that the first one left. For every compressor that
  gives files of at most 64,000 bytes, `ImageLostReference.PassesMayDiffer` gives such requests; one output
  with the text and 18 images of 127,000 bytes is enough. `ImageSecondPass.SecondPassExactly`
  says exactly when a second pass changes nothing: its target, which is known from the
  request before the first, is not lower than the first one's, or no image that the first
  pass left is above it. `ImageRequests.SecondPassIdle` covers all requests.
- An empty list of SQL values cannot be told from one empty value
  (`SqlText.RowRoundTrip`).

## Model

| member | source | states |
|---|---|---|
| TomlLexer.StatementSpans | codex_config.py:384-469 | the index loop finds exactly the spans of the step-by-step lexer |
| TomlLexer.SpansTile | codex_config.py:384-469 | spans are non-empty, ordered and disjoint, and everything outside them is white space or comment |
| TomlGrammar.StringLeaves | codex_config.py:405-428 | a string of any of the four kinds that does not hold its own closing quote, a backslash shielding what is behind it in the two basic ones, leaves the lexer as it found it, wherever it stands in a statement |
| TomlGrammar.GroupLeaves | codex_config.py:451-460 | so do brackets and braces around anything that does, line ends and comments inside them included |
| TomlGrammar.CommentedStatement | codex_config.py:430-433 | a statement with a comment behind it, whatever characters the comment holds, is one statement up to the end of its line |
| TomlGrammar.StrayStatement | codex_config.py:453-468 | brackets that close nothing change nothing, and a statement ends at a newline, a carriage return or both |
| TomlGrammar.DocumentStatements | codex_config.py:384-469 | a document of lines, each with an indent, pieces of plain text, strings and nested brackets, and a comment or none, lexes to exactly its lines that hold a piece |
| TomlComposition.LexConcat | codex_config.py:396-469 | from a boundary where the lexer is back at its start, lexing a + b is lexing a and then lexing b moved by its length, unless a CR LF is cut |
| TomlComposition.StatementsConcat | codex_config.py:396-469 | statement lists concatenate when texts do, and a + b is left open exactly when b is |
| TomlComposition.ConcatExactly | codex_config.py:396-469 | lexing is compositional at a boundary exactly when the boundary does not cut a CR LF |
| TomlComposition.SpanAligned | codex_config.py:440-469 | no statement ends between the CR and the LF of one line ending |
| TomlBoundaries.Surround | codex_config.py:384-469 | around every complete statement the lexer is in its initial state, and the texts before and behind it lex to the statements before and behind |
| TomlBoundaries.Terminate | codex_config.py:462-469 | a missing last newline ends the open last statement and changes no other |
| TomlBoundaries.ClosedSettles | codex_config.py:384-469 | a closed text that ends with a newline leaves the lexer in its initial state |
| TomlKeys.AssignmentReadback | codex_config.py:472-487 | the key of a rendered assignment is read back exactly when it holds no DEL |
| TomlKeys.HeaderReadback | codex_config.py:490-539 | the path of a rendered header is read back exactly when it is not empty and holds no DEL; it is always taken for some header and never for an assignment |
| TomlKeys.AssignmentIsNoHeader | codex_config.py:490-539 | a rendered assignment is never taken for a header |
| TomlSpelling.ReadKeyExactly | codex_config.py:472-487 | a key is read exactly in its spellings: bare, in double quotes with every escape of TOML, or in single quotes as it is |
| TomlSpelling.AssignmentExactly | codex_config.py:472-487 | a statement is taken to assign a key exactly when it is that key in one of its spellings, white space and an equals sign |
| TomlSpelling.HeaderExactly | codex_config.py:490-535 | a statement is taken for the header of a path exactly when it is the path's keys, in any spelling and with blanks around them, between dots in one pair of brackets |
| TomlSpelling.AnyHeaderExactly | codex_config.py:538-539 | any statement that begins with a bracket counts as some header |
| TomlValues.NeutralValue | codex_config.py:359-381 | a rendered value of any nesting leaves no string, bracket or comment open, wherever it stands inside a statement |
| TomlReadback.ValueRead | codex_config.py:359-381 | a rendered value of any nesting is read back as the value that was set, exactly when no string and no key in it holds a DEL, whatever stands behind it |
| TomlReadback.AssignmentRead | codex_config.py:355-381 | a rendered assignment is read back as its key and its value under the same condition |
| TomlValues.AssignmentIsOneStatement | codex_config.py:355-381 | key = value and a line ending lexes to exactly one statement for every value that can be rendered |
| TomlValues.HeaderIsOneStatement | codex_config.py:619-620 | a rendered header lexes to exactly one statement whatever its path |
| TomlEdit.Splice | codex_config.py:586-605 | a whole line put at a settled boundary adds exactly one statement there |
| TomlEdit.ReplaceAt | codex_config.py:568-605 | replacing the k-th span by a line replaces the k-th statement and no other |
| TomlEdit.InsertBetween | codex_config.py:579-605 | a line put between two closed texts adds one statement between theirs, ending an open last one |
| TomlEdit.TopLevelSearch | codex_config.py:579-605 | the search over spans in front of the first table finds the first statement with the key before the first header |
| TomlEdit.TableSearch | codex_config.py:542-565 | the search in a table's body finds the first statement with the key between its header and the next |
| TomlSetResults.SetTopLevelEdits | codex_config.py:586-605 | setting a top-level key replaces the first statement with that key in front of all tables, or adds one there; all other statements stay, but for a newline at an open end |
| TomlSetResults.SetTableEdits | codex_config.py:631-659 | setting a key in a table replaces or adds one statement in that table, or appends the table; it is refused exactly when the parent key is assigned at top level |
| TomlTexts.SetTopLevelText | codex_config.py:586-605 | setting a top-level key changes one statement of the text, its line ending kept, or adds a line in front of the first table; comments, blank lines and line endings outside it stay |
| TomlTexts.SetTableText | codex_config.py:631-659 | the same for setting a key in a table that is there |
| TomlTexts.NewTableText | codex_config.py:634-645 | a new table is written behind the whole text, which stays as it is, with a blank line in front of it unless the text is blank |
| TomlRepeat.SetTopLevelTwice | codex_config.py:586-605 | setting twice equals setting once, exactly when the key holds no DEL |
| TomlRepeat.SetTableTwice | codex_config.py:631-659 | setting in a table twice equals setting once, exactly when the key holds no DEL and the header can be read back |
| TomlRemove.RemoveStatements | codex_config.py:568-572 | cutting any set of statements leaves the others in order, with line endings joined where a CR meets an LF |
| TomlRemove.KeptUnchanged | codex_config.py:568-572 | what is kept is unchanged exactly when no kept statement joins a newline |
| TomlTexts.RemovedText | codex_config.py:568-572 | a text is its statements with gaps around them, and cutting statements leaves every gap and every other statement as it is |
| TomlTexts.GapsAreEmpty | codex_config.py:568-572 | no statement stands in a gap |
| TomlRemoveResults.RemoveTopLevelEdits | codex_config.py:608-616 | removing a top-level key leaves no statement with it in that section; the rest is unchanged exactly when no line endings join |
| TomlRemoveResults.RemoveTableValueEdits | codex_config.py:662-671 | removing a key from a table leaves the table in its place without the key; the rest is unchanged exactly when no line endings join |
| TomlRemoveResults.RemoveTableEdits | codex_config.py:674-696 | removing a table removes exactly the statements from its header to the next header outside it |
| TomlTexts.RemovedTableText | codex_config.py:674-696 | the text cut out goes from the table's header to the first header that is not nested in it, and all text in front of it and behind it stays |
| TomlRemoveResults.RemovalJoins | codex_config.py:608-616 | texts for which removing a key changes the statement before it |
| EditorFiles.ReadBack | codex_config.py:303-310 | a file is read as it is exactly when it holds no carriage return |
| EditorFiles.LineRead | codex_config.py:303-310 | each of the three line endings is read as one newline, and nothing else changes |
| EditorFiles.EditorHome.AtomicWrite | codex_config.py:1787-1826 | a write changes one file as a whole, or nothing; it fails before or after its rename |
| EditorFiles.EditorHome.RestoreFile | codex_config.py:1829-1840 | restoring writes the remembered text and mode, or removes a file that was not there |
| EditorFiles.EditorHome.AtomicWriteEditorFiles | codex_config.py:1843-1882 | the files after every step, for every choice of failing steps |
| EditorFiles.AllOrNothing | codex_config.py:1843-1882 | success leaves both files new; a rollback leaves both old exactly when the rewritten ones hold no carriage return and auth.json did not fail after its rename |
| EditorFiles.CredentialsComeFirst | codex_config.py:1858-1881 | a new configuration beside stale credentials is seen in exactly one combination of failures |
| YamlLimits.ValidateEvents | config_editor_core/schema.py:76-127 | the loop over events with its frame stack and anchor table accepts exactly the streams the machine runs through |
| YamlLimits.RunNode | config_editor_core/schema.py:76-127 | over the events of a node the machine adds up size and depth of its expansion, or stops where that passes a limit or an alias is not known |
| YamlLimits.AcceptsExactly | config_editor_core/schema.py:70-127 | a stream is accepted exactly when every alias names a completed anchored node and the full expansion has at most 100,000 nodes and depth at most 100 |
| YamlLimits.AcceptsDocument | config_editor_core/schema.py:70-127 | the same for one document |
| Fallback.NextOrder | litellm_menu/responses_execution.py:2270-2422 | the next order is the least one above the failed one, or else the lowest of all |
| Fallback.FallbackRequest.Advance | litellm_menu/responses_execution.py:2112-2422 | what one step writes into the request: the order to go to, what to avoid and which ids are verified, or a protocol switch that frees the failed deployment, or nothing when the failure is refused, has no order or leaves no other one |
| Fallback.DecisionUnique | litellm_menu/responses_execution.py:2193-2422 | the failure and what the request avoids determine the decision |
| Fallback.StepVerified | litellm_menu/patches.py:275-328 | where deployments with an order have ids that no usable one shares, the verified ids of a step are not empty and are exactly those of the usable, untried deployments of the target order |
| Fallback.RunsKeep | litellm_menu/responses_execution.py:2193-2422 | there a run never repeats a deployment, leaves an order only when its peers are tried, and visits orders as a rotation of the sorted ones |
| Fallback.StopsExhausted | litellm_menu/responses_execution.py:2193-2422 | where the deployments can be told apart, a run stops only when every usable one has been tried |
| Fallback.TriesAllExactly | litellm_menu/responses_execution.py:2193-2422 | for every list of deployments: no run from a first one with an order repeats or stops early, exactly when the deployments can be told apart |
| Fallback.ExhaustedRepeats | litellm_menu/routing.py:5782-5795 | a failure of an empty pool leads to a decision that avoids nothing more, and to the same entry again when that was for a peer |
| Fallback.NextDeployment | litellm_menu/patches.py:403-437 | where the deployments can be told apart, whichever candidate the router picks continues the run with a new deployment, and there is one unless every usable one was tried |
| Fallback.RunFallback | litellm_menu/patches.py:403-437 | there every usable deployment is tried once, whatever the router picks, and in the promised order if all with an order have ids; a first deployment without an order is the only one |
| RetryLoop.GenericHelper | litellm_menu/patches.py:1041-1261 | for every sequence of outcomes, refusals and reports of an empty pool among them, every call after the first is the first one that applies of browser headers, described images, a retry of the same deployment, its other protocol, and a deployment not called before; the loop ends within a bound on calls and never while one of the first four applies, and gives up on a located failure that is not refused only when every usable deployment was tried; when an empty pool is reported that is not empty the model stops, while the code goes on and may still get an answer |
| RetryLoop.Reroute | litellm_menu/patches.py:1085-1261 | a failure moves the request to another protocol of the same deployment at most once, or to a deployment not tried before, or ends the loop, or was a report of an empty pool that left an entry |
| RetryLoop.SwitchProtocol | litellm_menu/routing.py:3848-3907 | a protocol switch stays on the failed deployment and changes nothing the request avoids |
| RetryLoop.NotExcludedYet | litellm_menu/responses_execution.py:2193-2269 | for every run, the deployment that failed is not among those avoided before its failure was charged |
| GuardedStream.Guarded | litellm_menu/responses_execution.py:901-1055 | the retry is made exactly when a context error shows up while all before it was held back, and then the client gets the retry alone; without it the client gets nothing exactly when the source breaks or completes empty while all was held back, and otherwise all events up to the first terminal one or the break; at most 20 events are held |
| GuardedStream.DeliversUpTo | litellm_menu/responses_execution.py:1017-1055 | what is delivered of a source is all its events up to and with the first terminal one, or up to where it breaks or ends, and it counts as broken exactly when it breaks first |
| GuardedStream.RetryDeliversUpTo | litellm_menu/responses_execution.py:906-959 | the same for a retry stream, which also ends in front of a completion that has shown nothing |
| GuardedStream.Replay | litellm_menu/responses_execution.py:906-959 | what a retry delivers: its events up to the first terminal one, cut off before a completion that has shown nothing |
| GuardedStream.Judge | litellm_menu/responses_execution.py:961-1015 | one chunk starts the retry, ends the stream, starts delivery or is held back, exactly as the classifiers say |
| GuardedStream.DeliveryEndsAtTerminal | litellm_menu/responses_execution.py:882-1062 | nothing that is delivered follows a terminal event |
| GuardedStream.ContextTruncationStream.Read | litellm_menu/responses_execution.py:853-873 | a read delivers the next chunk, and a terminal one closes the stream and is what is remembered as the response |
| GuardedStream.ReadAll | litellm_menu/responses_execution.py:818-881 | reading to the end gives exactly what was delivered and remembers the response of the terminal chunk |
| ResponseEvents.ItemFed | litellm_menu/computer_facade.py:437-529 | the events of one item give a client exactly that item, if it is whole and its index is new, and are refused otherwise |
| ResponseEvents.TextStreamed | litellm_menu/computer_facade.py:445-491 | the deltas of a message add up to the part that is announced as done |
| ResponseEvents.FacadeStream | litellm_menu/computer_facade.py:2299-2379 | a client accepts the stream exactly when the output holds objects only and each message one part, and has the output then |
| SearchRounds.AnnounceFed | litellm_menu/computer_facade.py:1125-1155 | announcing an action opens a new index and raises the sequence number twice |
| SearchRounds.FinishFed | litellm_menu/computer_facade.py:1178-1206 | an action that finishes with an item closes its own index under its own id, whichever others are still running |
| SearchRounds.Emitter.RunRound | litellm_menu/computer_facade.py:1122-1239 | for every order in which the actions finish, the round collects the same sections, addresses and items, in the order of announcement |
| SearchRounds.RunRounds | litellm_menu/computer_facade.py:1243-1282 | all rounds together collect the same whatever the orders of completion |
| SearchRounds.CollectedItems | litellm_menu/computer_facade.py:1243-1282 | the collected items are those of all announced actions that gave one, in the order of their indices |
| SearchCollection.SlotsAre | litellm_menu/computer_facade.py:1122-1155 | the actions that get an output index are those with an item to announce, in order |
| SearchCollection.GatheredAre | litellm_menu/computer_facade.py:1215-1239 | a round gives the sections, addresses, actions and items of exactly the actions that finished with an item, in order, and each address once |
| SearchCollection.MessageIs | litellm_menu/computer_facade.py:1215-1239 | the message of a round are its sections that are not blank, as paragraphs |
| SearchCollection.CollectedAre | litellm_menu/computer_facade.py:1243-1282 | all rounds together give the addresses, actions and items of all actions that finished with an item, each address once |
| SearchCollection.RoundsAre | litellm_menu/computer_facade.py:1243-1282 | rounds follow one another, each planned from what was collected before it, until none is left or nothing is asked for |
| SearchCollection.AnswerIs | litellm_menu/computer_facade.py:1415-1423 | of the answer exactly the objects that are neither search calls nor calls of the search function go into the output, in order |
| SearchRounds.Gather | litellm_menu/computer_facade.py:1215-1239 | results are gathered by place, with each address once |
| SearchRounds.ResolveRounds | litellm_menu/computer_facade.py:1082-1505 | a client accepts the whole stream exactly when every announced action gave an item and every message has one part; the output it has then does not depend on completion orders |
| ProviderDocuments.RandomDeploymentId | config_editor_core/dump.py:143-151 | a drawn id is new, or 128 draws in a row were all taken |
| ProviderDocuments.DerivedIsKeyId | config_editor_core/schema.py:292-302 | an id derived from a provider's and a key's name is always accepted as an id, however long the names |
| ProviderSaving.SaveModel | config_editor_core/dump.py:403-413 | a model keeps its id if that is proper and new, and gets the first new one of up to 128 draws otherwise |
| ProviderFields.KeptIdExactly | config_editor_core/dump.py:403-413 | a model keeps its id exactly when that is eight hexadecimal digits, taken in small letters, that no model before it has |
| ProviderFields.NamedKeysExactly | config_editor_core/dump.py:180-199 | the keys saved are those with a value, in order, each under its own name or one made from its place and with its own id or a derived one; they are refused exactly when two with a value share a name |
| ProviderFields.KeyOfExactly | config_editor_core/dump.py:363-382 | a model uses the key with its key id if it names one; else the key it names; else, if it names none, the first with the value it holds; else the one called default; else the first; only an unknown key id is refused |
| ProviderFields.EntryHolds | config_editor_core/dump.py:347-434 | an entry holds the id, the name and the value or alias of the key its model uses, its route order by its mode, its own switch and its own fields |
| ProviderFields.SavedExactly | config_editor_core/dump.py:347-402 | a model can be saved exactly when it has an order for its mode, its key id is known and, if it is active, its names are not empty |
| ProviderSaving.FewFindIds | config_editor_core/dump.py:143-151 | a model finds no id only among more than 128 models, or when 128 draws in a row hold one twice |
| ProviderReload.SaveConfig | config_editor_core/api.py:75-142 | a save goes through exactly when every provider and model can be written, every model finds an id and the text can be read back; models are then split over the active and the disabled list in order |
| ProviderReload.SavedReadable | config_editor_core/schema.py:417-669 | the saved texts can be read back exactly when no anchor and no key id is repeated over the sections and keys are proper ones |
| ProviderReload.NamesMayClash | config_editor_core/dump.py:80-99 | providers whose names differ in a blank and an underscore cannot be saved together |
| ProviderSaving.AssertUniqueDeploymentIds | config_editor_core/api.py:34-47 | the check fails exactly when two entries share an id |
| ProviderSaving.IdsNeverCollide | config_editor_core/api.py:109-109 | all deployment ids over both lists are distinct |
| ProviderLoading.LoadConfigDocument | config_editor_core/load.py:419-492 | loading refuses texts that cannot be read and otherwise gives every entry to the provider it is located at, appending in order |
| ProviderLoading.ReadKeys | config_editor_core/load.py:96-126 | of keys that share a name or a value only the first is loaded |
| ProviderLoading.BuildTables | config_editor_core/load.py:428-458 | the lookup tables by id, pair, key and address |
| ProviderLookups.TablesFind | config_editor_core/load.py:428-458 | the lookups by address and key and by key find the first such key over all providers, the one by key id the last |
| ProviderLookups.BasesFind | config_editor_core/load.py:428-458 | the lookup by address finds the first provider with it |
| ProviderLookups.EntryGoes | config_editor_core/load.py:195-250 | an entry goes to the place of its key id; else to the one written in it; else to that of its address and key, of its key, of its address; else to the only provider |
| ProviderLookups.EntryLoads | config_editor_core/load.py:195-322 | an entry without markers loads with the switch of its list and as manual; its key name and id are those written, or those of the first key of its provider that fits |
| ProviderRoundTrip.TablesKnow | config_editor_core/load.py:434-458 | the tables lead every key id back to its own provider and key name |
| ProviderRoundTrip.LoadedAsCore | config_editor_core/load.py:195-322 | an entry is loaded as the model it was saved from, with the id it was given |
| ProviderFields.ShapeHolds | config_editor_core/load.py:195-322 | a saved model comes back with the id, name and value of the key it uses, with its route order by its mode and its own switch |
| ProviderRoundTrip.AppendGroups | config_editor_core/load.py:325-372 | appended models end up with their own provider, in order, and leave keys and base address alone |
| ProviderAppending.EnsuredExactly | config_editor_core/load.py:156-192 | for a value the first named key with it is used; without one a new key is added under the first free name, and all keys with a value stay before it in order |
| ProviderAppending.ExtendedExactly | config_editor_core/load.py:358-372 | the appended model carries the name and id of the key for its value, and of its provider only a blank address and the keys change |
| ProviderAppending.AppendedExactly | config_editor_core/load.py:325-372 | a model goes to the last provider of its name, or to a new one behind all others, and no other provider changes |
| ProviderAppending.KeyNameExactly | config_editor_core/load.py:140-145 | a key's name made from a model's are the words of that name with dashes between them, cut at 40 characters |
| ProviderConservation.SaveThenLoad | config_editor_core/load.py:419-492 | every provider keeps its keys and the same models as a multiset, each with its own switch, key and order, even when the provider is off |
| ProviderExactly.SaveThenLoadExactly | config_editor_core/load.py:325-372 | everything comes back exactly when the keys of each provider differ in their values and every key in use has a value without white space around it |
| ProviderWitness.TwinsFail | config_editor_core/load.py:96-126 | saves with two keys of one value that go through and do not come back whole |
| ProviderConservation.CanonicalTwice | config_editor_core/schema.py:395-410 | a canonical model name stays as it is |
| ProviderAppending.CanonicalExactly | config_editor_core/schema.py:395-410 | a model name is stored as its adapter's or surface's prefix and the name without a known prefix; an unknown prefix is part of the name |
| ProviderAppending.AnchorPartExactly | config_editor_core/dump.py:80-87 | an anchor's part are the words of a name with underscores between them, with p_ in front of a digit |
| ImageUrls.JpegSize | litellm_menu/image_inputs.py:179-185 | the size read off a data URL is exactly the number of bytes encoded |
| ImageUrls.EncodedShape | litellm_menu/image_inputs.py:179-185 | padded base64 has four characters for three bytes begun and one = for each byte missing |
| ImageUrls.ResizeDataUrl | litellm_menu/image_inputs.py:334-368 | the loop ends for every compressor and gives an image within the target or fails |
| ImageUrls.FailsExactly | litellm_menu/image_inputs.py:349-366 | it fails exactly when none of the tried qualities and edges fits |
| ImageUrls.EdgesEnd | litellm_menu/image_inputs.py:361-366 | the tried edges end at 64, even for a smaller image |
| ImageChoice.ResizedExactly | litellm_menu/image_inputs.py:334-368 | a larger image becomes the first JPEG within the target, over qualities 86, 82, 78 and 74 at the smaller of its own and the largest allowed edge and then quality 74 at edges of 17/20 each down to 64; it fails if there is none or it does not open |
| ImageBounding.PreviewTargetFalls | litellm_menu/image_inputs.py:458-478 | the preview target is between 128,000 and 320,000, never rises with the count, and all previews share the total or the least target each |
| ImageBounding.BudgetKept | litellm_menu/image_inputs.py:572-594 | count times target is at most the remaining budget or the least target each |
| ImageFixedPoint.BoundKeeps | litellm_menu/image_inputs.py:371-406 | bounding changes inline images only and leaves each one outside original-marked outputs within the target |
| ImageFixedPoint.BoundStays | litellm_menu/image_inputs.py:371-406 | a value is left as it is exactly when it is within the target |
| ImageFixedPoint.PreviewsKeep | litellm_menu/image_inputs.py:481-526 | bounding previews leaves every preview output within the target, wherever no marker is lost or no output is nested in another |
| ImageFixedPoint.BoundKeepsPreviews | litellm_menu/image_inputs.py:604-612 | the second bounding leaves previews within their own target, under the same condition |
| ImageFixedPoint.Reboundary | litellm_menu/image_inputs.py:320-331 | changing images behind the last encrypted item moves neither the boundary nor what is in front |
| ImageChoice.BoundaryExactly | litellm_menu/image_inputs.py:308-331 | the boundary stands behind the last item with encrypted content at any depth |
| ImageChoice.MarkedExactly | litellm_menu/image_inputs.py:409-430 | an output counts as marked exactly when it is a tool's output with a text part that holds the marker somewhere |
| ImageChoice.PreviewsExactly | litellm_menu/image_inputs.py:433-455 | previews are the inline image parts of the outermost outputs with references that are not marked as original |
| ImageChoice.CountedExactly | litellm_menu/image_inputs.py:529-536 | the sizes that count are those of all inline images in order, but for values that are themselves outputs marked as original |
| ImageBudget.StatsAre | litellm_menu/image_inputs.py:201-240 | where inline images stand in image parts, what is counted in front of the boundary are the images and the inline bytes |
| ImageBudget.OneImageCounts | litellm_menu/image_inputs.py:201-240 | a part of an image type, or anything with an image address, counts as one image, by the address under image_url, url or file_id |
| ImageRequests.WithBoundedImageInputs | litellm_menu/image_inputs.py:539-619 | the accumulating loops compute one pass over all values |
| ImageRequests.PassBounds | litellm_menu/image_inputs.py:539-619 | after a pass every image behind the boundary and outside original-marked outputs is within the target, and nothing but such images has changed |
| ImageBudget.TargetExactly | litellm_menu/image_inputs.py:572-594 | a single image of the whole request may have 900,000 bytes; many share what the images in front of the boundary leave of 2,400,000, each at most 320,000 and at least 128,000 with previews and 64,000 without |
| ImageBudget.WholeBudget | litellm_menu/image_inputs.py:539-619 | after a pass over many images all inline bytes of the request together are within 2,400,000, or within what is in front of the boundary and the least target for each counted image |
| ImageChoice.PassChooses | litellm_menu/image_inputs.py:595-619 | after a pass every text behind the boundary is what it becomes on its own under the target, with edges up to 2,200 for a single image and 1,400 for many |
| ImageRequests.PassIdle | litellm_menu/image_inputs.py:539-619 | a pass over images changes nothing exactly when all are within its two targets |
| ImageRequests.SecondPassIdle | litellm_menu/image_inputs.py:539-619 | for every request, a second pass changes nothing exactly when what the first left is within the targets of the second |
| ImageSecondPass.BoundCounts | litellm_menu/image_inputs.py:433-455 | the previews counted after bounding are those of outputs that keep a reference in a text which is not compressed |
| ImageSecondPass.SecondCounts | litellm_menu/image_inputs.py:539-619 | the counts and the target of the second pass are known from the request before the first |
| ImageSecondPass.SecondPassExactly | litellm_menu/image_inputs.py:539-619 | a second pass changes nothing exactly when its target is not lower than the first one's or no image that the first pass left is above it |
| ImageSecondPass.LowerTargetExactly | litellm_menu/image_inputs.py:572-594 | the second target is lower exactly when there were previews, none is left and the budget left per image is below the preview minimum |
| ImageLostReference.TwoPassesDiffer | litellm_menu/image_inputs.py:481-619 | a tool's output whose marked text is an oversized image, with many images in it, is changed by both passes |
| ImageLostReference.PassesMayDiffer | litellm_menu/image_inputs.py:481-619 | such a request exists for every compressor with small enough results |
| SqlText.SplitExactly | external_provider_import.py:946-982 | splitting is the one way to write a text as pieces whose separators stand inside quotes |
| SqlText.SplitSqlCsv | external_provider_import.py:965-982 | the index loop gives exactly these pieces, stripped |
| SqlText.SplitSqlStatements | external_provider_import.py:946-962 | the index loop gives exactly these pieces, stripped, without an empty rest |
| SqlText.UndoubleDouble | external_provider_import.py:985-993 | undoubling quotes undoes doubling them |
| SqlText.UndoubledRun | external_provider_import.py:990-990 | of a run of quotes half remain, rounded up, and every other character stays |
| SqlText.NumberExactly | external_provider_import.py:991-991 | a number is a sign or none, digits, and a point with further digits or none, with one digit at least |
| SqlText.LiteralExactly | external_provider_import.py:985-993 | a literal with white space around it is the text between its quotes, or a number as it is written; NULL and every other unquoted word are no value |
| SqlText.CellRoundTrip | external_provider_import.py:985-993 | a written cell decodes to its value, whatever characters it holds, and no splitter cuts it |
| SqlText.RowRoundTrip | external_provider_import.py:965-993 | writing a row, splitting and decoding it gives its values back, exactly when there is one |
| SqlText.InsertSelf | external_provider_import.py:946-962 | no semicolon inside a value splits the statement that inserts it |
| SqlText.DumpRoundTrip | external_provider_import.py:946-962 | splitting a dump gives its statements back |
| FreshNames.FreshName | external_provider_import.py:503-507 | the search ends after at most one more name than are used, with the first free one |
| ImportDrafts.ImportQuota.AddApiKey | external_provider_import.py:430-433 | a key is counted unless the limit is reached |
| ImportDrafts.ProviderDraft.AddKey | external_provider_import.py:445-461 | a secret is stored once, behind the others, under the first free name made from its title, and counted once; a blank one changes nothing, and so does one at the limit |
| ImportDrafts.PreferredKey | external_provider_import.py:463-466 | the preferred key is the one called default if there is one, and the first otherwise |
| ImportDrafts.ProviderDraft.AddModel | external_provider_import.py:526-627 | a model is added exactly when it has its names and a key of its own or a preferred one, with that key and the switches it was given; it is refused exactly at a limit |
| ImportDrafts.ProviderDraft.AsEditor | external_provider_import.py:468-480 | a provider is shown exactly when it has a name, an address and a key, with all its fields, and its primary key is the preferred one |
| ImportDrafts.Drafts.Provider | external_provider_import.py:491-513 | one draft per name and address, under the first free name, within the limit; an existing one stays on only if both are |
| ImportDrafts.Drafts.EditorProviders | external_provider_import.py:515-523 | the providers shown are, in order, exactly the drafts with a key as an editor gets them; they are consistent and distinctly named, and every other draft is counted as skipped |
| ImportDrafts.Import | external_provider_import.py:483-627 | for any sequence of calls there is one draft for each identity asked for, in order; it holds every secret and every model asked of it and nothing that was not asked for; an import ends early only at a limit, and the invariants hold throughout |
| LogRotation.RotatingLog.ShiftBackups | litellm_menu/log_rotation.py:67-87 | every backup moves up by one, missing ones are skipped and the last is dropped |
| LogRotation.RotatingLog.Append | litellm_menu/log_rotation.py:158-180 | a record that does not fit rotates the files first |
| LogRotation.AppendKeeps | litellm_menu/log_rotation.py:67-106 | an append of a record that fits in a file keeps a suffix of the longer history, each file within the maximum and neighbouring files together above it |
| LogRotation.RunRetains | litellm_menu/log_rotation.py:158-180 | after any run the log holds a suffix of all it was given: everything, or more than floor((N + 1) / 2) times the maximum |
| LogRotation.CurrentBounded | litellm_menu/log_rotation.py:166-177 | the current file is within the maximum exactly when the record is |
| LogRotation.CutKeepsSuffix | litellm_menu/log_rotation.py:90-106 | when a rotation cuts the current text, the log stays a suffix exactly when the older backups are a suffix of all in front of the cut |
| LogRotation.CutLineLosesText | litellm_menu/log_rotation.py:90-106 | when a line is cut and the log holds lines, exactly when no older backup is kept |
| LogRotation.LongLineIsAlone | litellm_menu/log_rotation.py:158-180 | a record that is too long is alone in the current file, and the next one cuts it |

## Left out

- TOML parsing by `tomllib` and the regular expression for keys: modelled by the rules for keys in TOML 1.0.0, on whole statements; dotted keys and inline parents are handled only by the refusal the code itself makes. Values are read back by a reader for values on one line, without dates, separated and prefixed numbers, and multi-line strings, which the editor does not write.
- Windows hosts in `editor_files.dfy`: texts are written with POSIX line endings; where Python writes CRLF for a newline, files read back differently.
- Floating-point texts in `toml_value`: any text over the letters a finite number is written with that has a point or an exponent.
- YAML parsing by PyYAML and `_validate_loaded_yaml_limits`: streams are event sequences, and the second check walks a tree that is already built.
- Error classifiers and marker lists of the routing code: arbitrary outcomes; a headers retry and a vision rewrite are assumed to be offered once each.
- Fallback.RunsKeep: the rotation of orders where a deployment with an order has no id; `Fallback.TriesAllExactly` covers such lists.
- RetryLoop.GenericHelper: for deployments with an order that have ids which no usable one shares, as the router gives them.
- Requests that arrive with routing constraints: a run starts with nothing avoided.
- Cooldown changes during one run: the unusable deployments stay the same; TTLs and clocks are not modelled.
- Telling which chunk is visible, terminal or a context error: fields of the chunk.
- Search keep-alive events, route recovery and the failed-response event; a run of an action is a function of the action, so the shared page cache has no part.
- The stream made up when the first response asks for no search (`_external_web_search_bridge_stream`): the events of the facade stream with a life cycle for search calls; request tracing.
- Anchors of other top-level YAML sections, the size limits of the YAML reader on the texts a save reads back, and entries that take a whole section by an alias.
- YAML text of the saved document, `_replace_top_level_sections`, `_unique_model_groups` and provider extras: the document is structured, and names that YAML would read as another type are not covered.
- Key ids derived by a hash: the hashed text stands for the digest, which is taken to be short and unique.
- ProviderExactly.SaveThenLoadExactly: base addresses are taken as normalized, so none is made of white space only; key values and addresses with a line break, which double-quoted YAML text folds, and with characters that YAML does not allow are not covered.
- API base normalization, protocol surfaces and orders written as text: values are taken as normalized.
- JPEG compression and decoding: any function giving non-empty files; `int(edge * 0.85)` is taken as exact arithmetic.
- ImageSecondPass.SecondPassExactly: its targets are told from the request before the first pass only where no tool's output is nested in another; `ImageRequests.SecondPassIdle` covers the rest from what the first pass left.
- ImageBudget.StatsAre: where an inline image stands in any other value in front of the boundary, or twice in one part, it is not counted by the code either; `ImageBudget.OneImageCounts` says which values count.
- ImageFixedPoint.PreviewsKeep: not for outputs nested in other fields of an output that loses its reference, which the first pass does not reach.
- The regular expression that recognises an INSERT statement, and Unicode digits in SQL numbers.
- File modes of logs, locks between processes and deletion of temporary files.
- `ImportDrafts` on texts that are already cleaned: `_label`, `_usable_secret` and `_valid_base_url` are applied by the caller.
- HTTP, subprocess workers, OCR, WebDAV, proxies, tracing and the React Native hosts.
