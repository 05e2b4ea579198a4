# Block storage and logging, modelled in Dafny

Two parts of the daemon are modelled, and properties of them are proved for all inputs, all runs and all
interleavings.

* **Block storage** (`src/blockchain_db`): adding a block writes its transactions, their key images and
  their outputs into numbered tables; popping the newest block takes all of that back. The LMDB tables are
  modelled as what they are, sequences of rows in key order that only accept a larger key at the end.
* **Logging** (`external/easylogging++`): the category filter with its cache and lock-free fast path, the
  pattern match, the UTF-8 sanitiser, the date and log format writers, the configuration registry with its
  text format, and the protocol by which writers of several threads dispatch their messages.

`dafny verify dfyconfig.toml` checks the project.

| file | contents |
|---|---|
| `Tables.dfy`, `ChainSpec.dfy` | the tables and the operations on them as functions |
| `ChainUndo.dfy`, `ChainExact.dfy` | removal undoes addition, and exactly when |
| `ChainInvariant.dfy`, `ChainRuns.dfy` | what the tables hold after every run of additions, failures and pops |
| `ChainSpent.dfy` | when the spent images are those of the live transactions |
| `ChainPartial.dfy` | what a failed operation leaves behind inside a batch |
| `ChainWitness.dfy` | inputs and runs on which the store does less than its purpose |
| `ChainStore.dfy` | the store as an object whose methods update the tables step by step |
| `Glob.dfy`, `Levels.dfy` | wildcard patterns; level names and priorities |
| `Categories.dfy`, `CategoryFilter.dfy`, `VRegistry.dfy` | category texts, the filter, and the registry object |
| `QuickReject.dfy` | the filter used by several threads, one access at a time |
| `Utf8.dfy` | canonical UTF-8 and the sanitiser |
| `Escape.dfy`, `DateFormat.dfy` | replacing a format specifier; writing a date into a fixed buffer |
| `Config.dfy`, `ConfigText.dfy`, `ConfigExact.dfy` | the configuration registry and its text format |
| `Dispatch.dfy` | writers, logger locks and the dispatch flag, in all interleavings |

## Where the code does less than its purpose

In these places the obvious property does not hold of the code. The model keeps the code, and the theorem
gives the exact condition.

* Popping a block undoes adding it if and only if every transaction of the block is *restorable*: all its
  inputs are of the two known kinds, and a version-2 transaction that has a coinbase input beside others has
  only outputs of amount 0. Otherwise outputs stored under amount 0 are looked for under their own amount
  (`ChainExact.PopUndoesAddExactly`, `ChainWitness.MixedDoesNotPopBack`). Over whole runs, pops leave no trace if and
  only if each that succeeds takes away a restorable block (`ChainRuns.RunIsReplayExactly`,
  `ChainWitness.PopLosesOutput`).
* The rollback of a transaction with an unsupported input also removes key images that an earlier transaction
  spent, when the input list names them after the unsupported input (`ChainInputs.RollbackRestoresExactly`,
  `ChainWitness.RollbackForgets`). Over whole runs, the spent images are those of the live transactions if and only
  if no transaction of the live blocks does so (`ChainSpent.RunSpentExactly`, `ChainWitness.ImageForgotten`).
* `add_block` counts the outputs of amount 0 of a listed transaction even when an unsupported input keeps it from
  being stored, and the outputs of a miner transaction whatever their amounts; the recorded count is right if and
  only if these miscounts cancel (`ChainRct.BlockCountExactly`, `ChainRct.UnstoredIsCounted`).
* Inside a batch a failed addition stays half done, and it breaks the numbering if and only if a transaction that
  is otherwise acceptable has an output that cannot be stored (`ChainPartial.BlockLeftExactly`,
  `ChainWitness.BatchIsSpoiled`).
* Appending a category text to another gives the union of the two lists if and only if the first text leaves
  no half-read category behind (`CategoryText.AppendsExactly`, `CategoryText.HalfFieldDoesNotAppend`).
* `clearCategories` keeps the text that `getCategories` returns; text and list agree if and only if nothing was
  cleared away since the last clearing set (`CategoryFilter.RunTextAgreesExactly`, `CategoryFilter.ClearingPartsThem`).
* The fast path rejects queries that the list allows in two places of `setCategories`, and nowhere else: between
  lowering the threshold and emptying the list, even if the new list allows the query too, and between inserting an
  entry and raising the threshold to it (`QuickReject.WrongRejectionsExactly`, `QuickReject.AllowedIsRejected`,
  `QuickReject.InsertedIsRejected`).
* `replaceFirstWithEscape` skips an occurrence right behind an escaped one when the specifier has two
  characters, and is right on all other strings and for all longer specifiers (`Escape.ReplacesExactly`,
  `Escape.ReplacesFirstExactly`).
* Copying a configuration with `setFromBase` reproduces it if and only if every Global entry comes with an
  entry for each level and those before it already have its value (`ConfigRegistry.CopyFaithfulExactly`,
  `ConfigHistory.LateGlobalDoesNotCopy`).
* A quoted configuration value is read back if and only if it is not empty, holds no quote and does not end in
  a backslash (`ConfigExact.SettingReadsExactly`, `ConfigExact.NotReadBack`).
* A writer that loses the dispatch flag while its message is not to be logged leaves its logger locked
  (`Dispatch.EndsReleasedExactly`, `Dispatch.LosingLeaks`, `Dispatch.LeakedForever`).
* UTF-8 that spells surrogates passes the canonicaliser unchanged (`Utf8.UnchangedExactly`, `Utf8.SurrogateUnchanged`).
* The month table holds "Apri" for April; `DateText.Ideal` shows what is printed.

## Model

| member | source | states |
|---|---|---|
| ChainInputs.RemoveImagesIsDifference | src/blockchain_db/blockchain_db.cpp:308-322 | removing a transaction's inputs takes exactly its key images out of the spent set, in whatever order they come |
| ChainInputs.AcceptedExactly | src/blockchain_db/blockchain_db.cpp:154-177 | the input loop accepts if and only if every input is supported and every image is new, also among themselves; then the spent set grows by exactly the images and the coinbase flag says whether there is a coinbase input |
| ChainInputs.InputsUndo | src/blockchain_db/blockchain_db.cpp:154-177 | removing the images of an accepted transaction gives the spent set back |
| ChainInputs.RollbackExactly | src/blockchain_db/blockchain_db.cpp:160-176 | the loop rolls back if and only if an unsupported input stands behind inputs that were all accepted |
| ChainInputs.RollbackRestoresExactly | src/blockchain_db/blockchain_db.cpp:160-176 | the rollback restores the spent set if and only if no image listed behind the unsupported input was spent before |
| ChainWitness.RollbackForgets | src/blockchain_db/blockchain_db.cpp:160-176 | a spent image listed behind an unsupported input is not spent any more after the rollback |
| ChainUndo.AddOutputAccepts | src/blockchain_db/lmdb/db_lmdb.cpp:1003-1067 | on tables without gaps an output is refused only for its target or for a missing commitment; the next global number is the number of outputs |
| ChainUndo.AddOutputUndo | src/blockchain_db/lmdb/db_lmdb.cpp:1115-1151 | removing an output at the index that adding it returned restores both output tables, including an amount that had no outputs |
| ChainUndo.AddOutputsUndo | src/blockchain_db/lmdb/db_lmdb.cpp:1092-1113 | removing a transaction's outputs from the last to the first undoes adding them from the first to the last |
| ChainUndo.AddTransactionTables | src/blockchain_db/blockchain_db.cpp:125-218 | what adding a transaction changes in each table, that nothing else changes, and that the numbering stays without gaps |
| ChainUndo.AddTransactionUndo | src/blockchain_db/blockchain_db.cpp:308-322 | removing a restorable transaction that was just added restores the whole database, and the transaction could be read back before |
| ChainUndo.AddTxsUndo | src/blockchain_db/blockchain_db.cpp:286-301 | removing the listed transactions backwards undoes adding them and returns them in reverse order |
| ChainUndo.TakeUndoesPutBlock | src/blockchain_db/lmdb/db_lmdb.cpp:808-843 | removing the top block record undoes writing it and returns the block |
| ChainUndo.AddBlockUndo | src/blockchain_db/blockchain_db.cpp:220-301 | pop after add restores every table and returns the block and its transactions in reverse order |
| ChainExact.RemoveTxsLeftover | src/blockchain_db/blockchain_db.cpp:286-301 | how many outputs of amount 0 the removal of any supported transactions leaves behind: the sum of what each leaves |
| ChainExact.LeftoverExactly | src/blockchain_db/lmdb/db_lmdb.cpp:1092-1113 | a supported transaction leaves something behind if and only if it is not restorable |
| ChainExact.RestoredIsSupported | src/blockchain_db/blockchain_db.cpp:154-177 | a block that pops to the database before it has only supported inputs |
| ChainExact.PopUndoesAddExactly | src/blockchain_db/blockchain_db.cpp:220-301 | pop undoes add if and only if every transaction of the block is restorable |
| ChainWitness.MixedDoesNotPopBack | src/blockchain_db/blockchain_db.cpp:220-301 | a block whose miner transaction has a coinbase input, another input and an output of amount 5 is added to the empty store and does not pop back |
| ChainAccept.OutputsAcceptedExactly | src/blockchain_db/blockchain_db.cpp:179-217 | the output loop succeeds if and only if every output pays to a key and has a commitment where it is stored under amount 0; it never fails for the numbering |
| ChainAccept.TransactionAcceptedExactly | src/blockchain_db/blockchain_db.cpp:125-218 | a supported transaction is accepted if and only if its images and hash are new and its outputs are storable |
| ChainAccept.AddBlockKeepsShape | src/blockchain_db/blockchain_db.cpp:220-279 | for every block, supported or not, the numbering stays without gaps and never causes an error |
| ChainInvariant.AddOutputsDescribes | src/blockchain_db/blockchain_db.cpp:179-217 | after the output loop the output tables hold the old outputs followed by the transaction's, and the recorded indices are the places within their amounts |
| ChainInvariant.AddUnsupportedStoresNothing | src/blockchain_db/blockchain_db.cpp:160-176 | a transaction with an unsupported input changes the spent set only, to what the rollback leaves |
| ChainInvariant.AddTransactionDescribes | src/blockchain_db/blockchain_db.cpp:125-218 | for every transaction, the tables stay those that the list of live transactions determines; the list grows by the transaction unless an input is unsupported |
| ChainInvariant.RecordedIndexNamesItsOutput | src/blockchain_db/lmdb/db_lmdb.cpp:1069-1090 | each recorded index points at the entry of its amount with the output's own key, whose global number leads back to the transaction and the output's position |
| ChainRuns.RunChain | src/blockchain_db/lmdb/db_lmdb.cpp:730-843 | after every run whatever, the block tables hold exactly the live blocks at their heights |
| ChainRuns.PopReplayedExactly | src/blockchain_db/lmdb/db_lmdb.cpp:3667-3684 | popping a chain of any blocks gives the chain without its last block if and only if that block is restorable |
| ChainRuns.RunIsReplayExactly | src/blockchain_db/lmdb/db_lmdb.cpp:3633-3684 | a run of additions, failures and pops is at every moment in the database that adding only the live blocks gives if and only if every pop that succeeds takes away a restorable block |
| ChainRuns.PopReturnsLastLive | src/blockchain_db/blockchain_db.cpp:286-301 | after every run a pop fails on the empty chain and never returns another block than the last live one |
| ChainRuns.PopReturnsTransactions | src/blockchain_db/blockchain_db.cpp:286-301 | after a run of restorable pops, a pop of a restorable block leads back to the chain without it and returns its transactions in reverse order |
| ChainRuns.RunDescribed | src/blockchain_db/lmdb/db_lmdb.cpp:3633-3684 | after every run of restorable pops, whatever was added, the transaction and output tables are those that the live blocks determine |
| ChainWitness.PopLosesOutput | src/blockchain_db/lmdb/db_lmdb.cpp:1092-1151 | a run whose pop succeeds, deletes the output of another block, and does not lead back to the database before |
| ChainSpent.RollbackLeaves | src/blockchain_db/blockchain_db.cpp:160-176 | the rollback takes exactly the images listed behind the first unsupported input out of the spent set |
| ChainSpent.AddTransactionSpent | src/blockchain_db/blockchain_db.cpp:125-218 | after an accepted addition the spent set is the disjoint union of the images of the stored transactions if and only if it was before and the transaction lists, behind its first unsupported input, no image of a stored one |
| ChainSpent.RunSpentExactly | src/blockchain_db/blockchain_db.cpp:154-177 | after every run of restorable pops every spent image belongs to a live transaction, and the spent set is the disjoint union of their images if and only if each transaction of the live blocks was of that kind |
| ChainWitness.ImageForgotten | src/blockchain_db/blockchain_db.cpp:160-176 | a run of two additions that ends with a live transaction whose image is not spent |
| ChainRct.ListedCountExactly | src/blockchain_db/blockchain_db.cpp:252-263 | the count of an accepted listed transaction equals the growth of the outputs under amount 0 if and only if: with supported inputs, it is of version 1, has no coinbase input, or has only zero amounts; with an unsupported input, it has no zero amount |
| ChainRct.MinerCountExactly | src/blockchain_db/blockchain_db.cpp:245-248 | the count of an accepted miner transaction equals that growth if and only if it is of version 1, or has supported inputs and a coinbase input or only zero amounts, or has no outputs |
| ChainRct.BlockCountExactly | src/blockchain_db/blockchain_db.cpp:220-279 | for every accepted block the number handed to the block record equals the growth of the outputs under amount 0 if and only if the miscounts of its transactions, a function of the transactions alone, add up to 0 |
| ChainRct.CountedBlockIsExact | src/blockchain_db/blockchain_db.cpp:220-279 | they do when each transaction is counted right |
| ChainRct.UnstoredIsCounted | src/blockchain_db/blockchain_db.cpp:252-263 | a block with an unsupported listed transaction is accepted, records a count of 1 and stores no output |
| ChainRct.TopTotalCounts | src/blockchain_db/lmdb/db_lmdb.cpp:730-806 | for every chain of accepted blocks, the newest total is the number of outputs stored under amount 0 since the last block of a version below 4, plus the miscounts of these blocks |
| ChainRct.RecordedTotals | src/blockchain_db/lmdb/db_lmdb.cpp:730-806 | after every run of restorable pops, the total at each height is the number of outputs its blocks stored under amount 0 if and only if their miscounts add up to 0, and it is the size of the whole bucket if and only if they add up to what was stored before |
| ChainPartial.TransactionLeftExactly | src/blockchain_db/blockchain_db.cpp:125-218 | a failed add_transaction leaves the numbering without gaps if and only if it is not the case that its inputs are supported, its images and hash are new and one of its outputs cannot be stored |
| ChainPartial.BlockLeftExactly | src/blockchain_db/lmdb/db_lmdb.cpp:3606-3665 | inside a batch, where nothing is undone, a failed add_block leaves the numbering without gaps if and only if no transaction of the block whose predecessors are all accepted is of that kind |
| ChainWitness.BatchIsSpoiled | src/blockchain_db/lmdb/db_lmdb.cpp:3606-3665 | a block whose miner transaction pays to no key fails on the empty store and leaves a gap in a batch |
| ChainPartial.RefusedBlockLeaves | src/blockchain_db/lmdb/db_lmdb.cpp:3606-3665 | inside a batch, a block refused for its place in the chain leaves all its transactions stored |
| ChainStore.BlockStore.AddSpentKey | src/blockchain_db/lmdb/db_lmdb.cpp:1207-1222 | refuses a known image, otherwise adds it |
| ChainStore.BlockStore.RemoveSpentKey | src/blockchain_db/lmdb/db_lmdb.cpp:1224-1242 | the image is gone, whether or not it was there |
| ChainStore.BlockStore.AddTransactionData | src/blockchain_db/lmdb/db_lmdb.cpp:845-923 | the in-place update is the specified one, with the tables it leaves when the row is refused after the number was written |
| ChainStore.BlockStore.AddOutput | src/blockchain_db/lmdb/db_lmdb.cpp:1003-1067 | the in-place update and the returned index are the specified ones, with the tables it leaves when the amount's row is refused after the global one was written |
| ChainStore.BlockStore.AddTxAmountOutputIndices | src/blockchain_db/lmdb/db_lmdb.cpp:1069-1090 | the indices are appended under the transaction's number |
| ChainStore.BlockStore.RemoveOutput | src/blockchain_db/lmdb/db_lmdb.cpp:1115-1151 | the in-place deletion is the specified one; on an error nothing changes |
| ChainStore.BlockStore.AddInputs | src/blockchain_db/blockchain_db.cpp:154-177 | the loop over the inputs, with its rollback, ends as specified, with the spent set it leaves when it throws |
| ChainStore.BlockStore.RemoveInputs | src/blockchain_db/blockchain_db.cpp:308-322 | the loop removes the images of all key inputs |
| ChainStore.BlockStore.AddOutputs | src/blockchain_db/blockchain_db.cpp:179-217 | the loop over the outputs collects the specified indices and tables, with the tables it leaves when it throws |
| ChainStore.BlockStore.StoreTransaction | src/blockchain_db/blockchain_db.cpp:179-217 | the rows, outputs and recorded indices of an accepted transaction, with the tables left when a step throws |
| ChainStore.BlockStore.AddTransaction | src/blockchain_db/blockchain_db.cpp:125-218 | the tables afterwards are the specified ones, on success and when it throws half way |
| ChainStore.BlockStore.RemoveOutputs | src/blockchain_db/lmdb/db_lmdb.cpp:1092-1113 | the backward loop deletes the specified outputs, with the tables it leaves when it throws |
| ChainStore.BlockStore.RemoveTransactionData | src/blockchain_db/lmdb/db_lmdb.cpp:927-1001 | the transaction's rows and outputs are deleted as specified, with the tables it leaves when it throws |
| ChainStore.BlockStore.RemoveTransaction | src/blockchain_db/blockchain_db.cpp:308-322 | the tables afterwards are the specified ones, on success and when it throws half way |
| ChainStore.BlockStore.AddBlockRecord | src/blockchain_db/lmdb/db_lmdb.cpp:730-806 | a known block, a missing parent and a parent that is not on top are refused and change nothing; otherwise the record with its running total is appended |
| ChainStore.BlockStore.CountZeroAmounts | src/blockchain_db/blockchain_db.cpp:252-262 | the loop counts the outputs of amount 0 |
| ChainStore.BlockStore.AddListed | src/blockchain_db/blockchain_db.cpp:246-263 | the loop adds the listed transactions in order and returns their count, with the tables it leaves when it throws |
| ChainStore.BlockStore.AddBlock | src/blockchain_db/lmdb/db_lmdb.cpp:3606-3665 | on success the specified database; on failure the database unchanged outside of a batch, and half done inside one |
| ChainStore.BlockStore.RemoveBlockRecord | src/blockchain_db/lmdb/db_lmdb.cpp:808-843 | the top record and its height entry are removed; the empty chain is refused and nothing changes |
| ChainStore.BlockStore.RemoveListed | src/blockchain_db/blockchain_db.cpp:286-301 | the backward loop removes and returns the listed transactions, with the tables it leaves when it throws |
| ChainStore.BlockStore.PopBlock | src/blockchain_db/lmdb/db_lmdb.cpp:3606-3684 | on success the specified database and block; on failure the database unchanged outside of a batch, and half done inside one |
| Glob.MatchesExactly | external/easylogging++/easylogging++.cc:960-982 | the recursive test accepts exactly the strings of the pattern's language, where a star stands for any string and a question mark for any character |
| Glob.WildCardMatch | external/easylogging++/easylogging++.cc:960-982 | the loop over the two pointers terminates, stays inside both strings and decides the language |
| Levels.FromPrefixExactly | external/easylogging++/easylogging++.cc:226-244 | a level is found if and only if the text begins with its name in one of the two spellings, which then lies inside the text |
| Levels.FromPrefixOfName | external/easylogging++/easylogging++.cc:188-244 | reading the printed name gives the level back, whatever follows |
| Levels.FromPrefixIgnoresComma | external/easylogging++/easylogging++.cc:226-244 | a level is never read across a comma |
| CategoryText.ParseLength | external/easylogging++/easylogging++.cc:2170-2174 | a text gives at most as many categories as the fields reserved for it |
| CategoryText.AppendsExactly | external/easylogging++/easylogging++.cc:2165-2207 | parsing a text, a comma and any second text gives the two lists after each other if and only if the first text ends clean |
| CategoryText.HalfFieldDoesNotAppend | external/easylogging++/easylogging++.cc:2165-2207 | every name without a level is unclean and runs into the first name of the next text |
| CategoryText.PrintRoundTrip | external/easylogging++/easylogging++.cc:2176-2207 | every list of printable categories is read back from its text, and the text ends clean |
| CategoryFilter.LastMatchMeaning | external/easylogging++/easylogging++.cc:2226-2235 | the scan answers with the last category that matches, or says that none does |
| CategoryFilter.SetKeepsCoherent | external/easylogging++/easylogging++.cc:2147-2208 | setting categories keeps cache and threshold in agreement with the list |
| CategoryFilter.QueryKeepsCoherent | external/easylogging++/easylogging++.cc:2218-2237 | a query answers as the plain scan and keeps the agreement |
| CategoryFilter.FilterRefinesScan | external/easylogging++/easylogging++.cc:3351-3357 | after every run of sets, clears and queries the cached filter with its threshold answers as a scan of the list |
| CategoryFilter.RunTextReads | external/easylogging++/easylogging++.cc:2140-2213 | after every run whose texts since the last clearing set end clean, the text that getCategories returns reads as the categories that clearCategories took away since then, followed by the current list |
| CategoryFilter.RunTextAgreesExactly | external/easylogging++/easylogging++.cc:2140-2213 | after such a run text and list agree if and only if clearCategories took nothing away |
| CategoryFilter.ClearingPartsThem | external/easylogging++/easylogging++.cc:2140-2145 | after setting one category and clearing, text and list do not agree |
| VRegistryObject.VRegistry.ClearCategories | external/easylogging++/easylogging++.cc:2140-2145 | list, cache and threshold are reset, the text stays |
| VRegistryObject.VRegistry.SetCategories | external/easylogging++/easylogging++.cc:2147-2208 | the object after the call is the specified registry, for a null text too |
| VRegistryObject.VRegistry.ParseAndInsert | external/easylogging++/easylogging++.cc:2170-2207 | the moving pointer appends what the text parses to, within the reserved fields, and raises the threshold |
| VRegistryObject.VRegistry.CountFields | external/easylogging++/easylogging++.cc:2170-2173 | the loop counts the commas |
| VRegistryObject.VRegistry.PriorityAllowed | external/easylogging++/easylogging++.cc:2218-2237 | answer and cache are the specified ones |
| VRegistryObject.VRegistry.Allowed | external/easylogging++/easylogging++.cc:3351-3357 | the threshold is looked at first; answer and cache are the specified ones |
| QuickReject.RunInv | external/easylogging++/easylogging++.cc:2136-2237 | in every interleaving one thread at most holds the lock, the threshold covers the list but for a change in progress, and the cache agrees with the list |
| QuickReject.AnswersAreExact | external/easylogging++/easylogging++.cc:2218-2237 | in every interleaving an answer given under the lock is that of a scan of the list at that moment |
| QuickReject.RejectionsAreCovered | external/easylogging++/easylogging++.cc:3351-3357 | in every interleaving a rejection without the lock is right for the prefix of the list that the threshold covers, which is the whole list when no change is in progress |
| QuickReject.WrongRejectionsExactly | external/easylogging++/easylogging++.cc:2149-2162 | in every interleaving the list in place allows a query that is rejected without the lock if and only if a set has lowered the threshold, not yet emptied the list, and the list allows the query, or a set has inserted an entry, not yet raised the threshold, and the entry allows the query |
| QuickReject.LoweringRejects | external/easylogging++/easylogging++.cc:2157-2162 | for all lists and all queries below the highest severity there is a run in which the query is rejected while one list is in place and a clearing set is about to replace it by the other |
| QuickReject.AllowedIsRejected | external/easylogging++/easylogging++.cc:2157-2162 | a run in which a query is rejected that the list in place and the list about to replace it both allow |
| QuickReject.InsertingRejects | external/easylogging++/easylogging++.cc:2149-2155 | for every entry and every query below the highest severity there is a run in which the query is rejected while a set that does not clear has just inserted the entry |
| QuickReject.InsertedIsRejected | external/easylogging++/easylogging++.cc:2149-2155 | such a run with an entry that allows the query |
| Utf8.DecodeEncode | external/easylogging++/easylogging++.cc:2492-2568 | decoding the encoding of any code points in range gives them back |
| Utf8.CanonicalIsEncodeMapDecode | external/easylogging++/easylogging++.cc:2492-2568 | a text is accepted if and only if it decodes and the transform stays in range, and the result is the shortest encoding of the transformed code points |
| Utf8.CanonicalLength | external/easylogging++/easylogging++.cc:2492-2568 | the result is no longer than the input for a transform that does not lengthen a code point |
| Utf8.UnchangedExactly | external/easylogging++/easylogging++.cc:2492-2568 | without a transform exactly the well-formed texts, surrogates admitted, come back unchanged |
| Utf8.SurrogateUnchanged | external/easylogging++/easylogging++.cc:2492-2568 | the bytes of the surrogate 0xd800 are not well-formed and come back unchanged |
| Utf8.EncodeWellFormed | external/easylogging++/easylogging++.cc:2492-2568 | what is written is well-formed if and only if no surrogate is among the code points |
| Utf8.SanitizeRemovesControls | external/easylogging++/easylogging++.cc:2570-2583 | the result decodes to no control character, not even one the input spelt overlong; it is no longer than the input and sanitising it again changes nothing |
| Utf8Loop.Utf8Canonical | external/easylogging++/easylogging++.cc:2492-2568 | the byte loop terminates, never reads past the text, and gives the specified result or error |
| Escape.ReplacesFirst | external/easylogging++/easylogging++.cc:1026-1038 | with three or more characters, the first unescaped occurrence is replaced and the escape signs of the occurrences before it are erased, on every string |
| Escape.ReplacesExactly | external/easylogging++/easylogging++.cc:1026-1038 | on a given string the routine does this for every replacement if and only if the first unescaped occurrence does not stand right behind an escaped one of two characters |
| Escape.TwoCharactersMiss | external/easylogging++/easylogging++.cc:1026-1038 | for every two-character specifier, the string of an escaped one and another one is such a string |
| Escape.ReplacesFirstExactly | external/easylogging++/easylogging++.cc:1026-1038 | the routine does this on all strings if and only if the specifier has at least three characters |
| Escape.ReplaceFirstWithEscape | external/easylogging++/easylogging++.cc:1026-1038 | the loop on the edited string terminates for every pattern, the empty one included, ends as specified, and meets its purpose on every string it does not miss |
| DateText.FieldMeaning | external/easylogging++/easylogging++.cc:1087-1100 | a padded field has the asked number of digits, eight at most, and shows the number modulo that power of ten |
| DateText.DigitsUnique | external/easylogging++/easylogging++.cc:1087-1100 | length and value determine the field |
| DateBuffer.AddToBuff | external/easylogging++/easylogging++.cc:1102-1106 | writes the longest prefix that fits and nothing past the limit but what was there |
| DateBuffer.ConvertAndAddToBuff | external/easylogging++/easylogging++.cc:1087-1100 | writes the longest prefix of the field that fits |
| DateBuffer.AddSpecified | external/easylogging++/easylogging++.cc:1360-1410 | writes the longest prefix of the text that the specifier stands for |
| DateBuffer.ParseFormat | external/easylogging++/easylogging++.cc:1353-1415 | the buffer holds the longest prefix of the ideal text that fits its size, and is otherwise as before but for one terminator |
| ConfigRegistry.LookupAfterSet | external/easylogging++/easylogging++.cc:421-427 | setting a key changes that key and, at Global, the key of every level, and nothing else; the second global pass changes no value |
| ConfigRegistry.LookupAfterCopy | external/easylogging++/easylogging++.cc:388-396 | after copying, a key has the value that the last affecting entry of the base gives, or its old one |
| ConfigRegistry.CopyFaithfulExactly | external/easylogging++/easylogging++.cc:388-396 | a base is copied faithfully onto every registry if and only if it is closed and settled |
| ConfigHistory.RunKeeps | external/easylogging++/easylogging++.cc:612-653 | after every history keys are unique, every Global entry comes with one for each level, and the first entry of a type is at the level at which the type was first set |
| ConfigHistory.GlobalInFrontExactly | external/easylogging++/easylogging++.cc:612-653 | the Global entry stands in front if and only if the type was first set at Global or has no Global value |
| ConfigHistory.GlobalFirstCopies | external/easylogging++/easylogging++.cc:388-396 | a registry whose types were all first set at Global is copied faithfully |
| ConfigHistory.RunCopiesExactly | external/easylogging++/easylogging++.cc:388-396 | after every history the registry is copied faithfully if and only if it is settled |
| ConfigHistory.EarlierLevelDoesNotCopy | external/easylogging++/easylogging++.cc:388-396 | a registry whose type was first set at a level that has a value of its own beside Global is not copied faithfully |
| ConfigHistory.LateGlobalDoesNotCopy | external/easylogging++/easylogging++.cc:388-396 | a history of three sets that ends in such a registry |
| ConfigObject.Configurations.UnsafeSet | external/easylogging++/easylogging++.cc:619-629 | the entry is changed where it stands or appended, and a Global value reaches every level |
| ConfigObject.Configurations.UnsafeSetGlobally | external/easylogging++/easylogging++.cc:643-653 | the loop over the shifted level index visits exactly the seven levels |
| ConfigObject.Configurations.Set | external/easylogging++/easylogging++.cc:421-427 | the registry afterwards is the specified one |
| ConfigObject.Configurations.SetFromBase | external/easylogging++/easylogging++.cc:388-396 | the registry afterwards is the specified one; nothing happens without a base or with itself |
| ConfigRoundTrip.LevelReadsBack | external/easylogging++/easylogging++.cc:217-224 | the name of each level is read as that level |
| ConfigRoundTrip.TypeReadsBack | external/easylogging++/easylogging++.cc:258-297 | the name of each configuration type is read as that type |
| ConfigRoundTrip.HeaderParses | external/easylogging++/easylogging++.cc:552-610 | a level header sets the current level and changes nothing else |
| ConfigRoundTrip.SettingParses | external/easylogging++/easylogging++.cc:552-610 | a quoted setting line, with comment signs inside the quotes or not, sets exactly its value at the current level |
| ConfigRoundTrip.RenderRoundTrip | external/easylogging++/easylogging++.cc:501-515 | parsing the text rendered from any list of renderable settings gives the registry that setting them in order gives |
| ConfigExact.QuotedExactly | external/easylogging++/easylogging++.cc:583-603 | stripping the quotes gives a value back if and only if it is not empty, holds no quote and does not end in a backslash |
| ConfigExact.SettingReadsExactly | external/easylogging++/easylogging++.cc:552-610 | for every value, comment signs and quotes included, a setting line sets some value at its level and type, and it is the given one if and only if that condition holds |
| ConfigExact.NotReadBack | external/easylogging++/easylogging++.cc:552-610 | an empty value, one with a quote and one that ends in a backslash are not read back |
| ConfigParser.IgnoreComments | external/easylogging++/easylogging++.cc:517-534 | the loop over escaped quotes ends, and the line is cut at the specified comment |
| ConfigParser.EraseEscapes | external/easylogging++/easylogging++.cc:587-594 | the loop erases the specified backslashes |
| ConfigParser.ReadAssignment | external/easylogging++/easylogging++.cc:575-603 | type and value of an assignment, no type for any other line |
| ConfigParser.ReadLine | external/easylogging++/easylogging++.cc:552-610 | registry, level and success after a line are the specified ones |
| ConfigParser.ParseFromText | external/easylogging++/easylogging++.cc:501-515 | the base is taken over first, then the lines in order; the last line decides the result |
| Dispatch.NextKeepsInv | external/easylogging++/easylogging++.cc:2942-3060 | each step of each writer keeps the flag equal to the number of writers inside, each mutex count equal to what its thread's writers owe or have leaked, and unlocked loggers without text |
| Dispatch.AtMostOneInside | external/easylogging++/easylogging++.cc:2983-3033 | in every interleaving no two writers are between setting and clearing the flag |
| Dispatch.EndsReleasedExactly | external/easylogging++/easylogging++.cc:2983-3060 | in every interleaving a writer, over all loggers of its loop, has released each lock as often as it took it if and only if it did not lose the flag with a logger and no permission to log; otherwise exactly one lock stays taken |
| Dispatch.NeverReleasesOthers | external/easylogging++/easylogging++.cc:2983-3060 | in every interleaving a writer only releases a mutex, and only writes to a stream, that its own thread holds |
| Dispatch.QuietLoggersAreFree | external/easylogging++/easylogging++.cc:2942-3060 | once all writers have ended the flag is clear, a logger is locked if and only if a lock on it was leaked, and every free logger has an empty stream |
| Dispatch.LosingLeaks | external/easylogging++/easylogging++.cc:2983-2993 | a run of two threads in which a writer that may not log loses the flag and ends with its logger locked |
| Dispatch.LeakedForever | external/easylogging++/easylogging++.cc:2983-2993 | in every run a leaked mutex stays with its thread |

## Left out

- The hard-fork table, alternative blocks, the transaction pool and the output blacklist are not modelled.
- The split of a transaction into pruned and prunable parts, and the prunable hashes, are not modelled; a transaction is one value.
- Hashes are fields of a transaction or block; that they are computed from the contents, and the block weight, difficulty and coins, are one opaque number.
- Commitments and unlock times are carried by each output and transaction as given; ring signatures and proofs do not occur.
- Starting, committing and aborting a batch as a whole is not modelled; a batch is a flag of the operations inside it.
- Errors of the database engine other than a missing, a repeated and a misplaced key are not modelled, nor is the wrap-around of 64-bit counters.
- The time statistics of the store are not modelled.
- Number fields without zero padding, used for line numbers, are not modelled.
- Reading configurations from a file, log files, the console, callbacks' own effects, crash handling and asynchronous logging are not modelled.
- The verbose level of modules (`setModules`) is not modelled; it would repeat the category parser.
- Assertions of the logging library are taken as in the default build, where they do not stop the program.
- ConfigRoundTrip.RenderRoundTrip: does not cover values with a line break, because a line ends there; for the other values the exact condition is `ConfigExact.SettingReadsExactly`.
- Dispatch.EndsReleasedExactly: does not follow the text of a message from one logger to the next, only whether a stream holds text; the abort after a fatal message is a run that ends there.
- A writer made by `construct(this, false)`, whose caller has taken the logger's lock (`external/easylogging++/easylogging++.h:3368-3378`), is not a case of its own: the acquisition by the caller counts as the writer's.
- The iteration over loggers' own configurations and the reconfiguration of loggers while writers run are not modelled.
