# Verified models of luci-go

Dafny models of parts of this repository that are easy to get wrong, with proofs of what they promise,
and, where they do not keep a promise, of exactly when they do. `dafny verify dfyconfig.toml` checks
everything.

**The `.isolate` compiler** (`client/isolate`). `IsolatePython` turns Python conditions into Go
expressions; `IsolateValues` and `IsolateCondition` model values, conditions, and the evaluator with its
stop flag, which is proved to compute a left-to-right three-valued meaning. `IsolateOdometer` and
`IsolateMatch` enumerate all partial configurations of a condition. `IsolateTable`, `IsolateMerge` and
`IsolateConfigs` are the keyed table of settings: storing, widening, merging, querying. `IsolateRebase`
merges settings of different directories, and `IsolateDirectories` shows that for a whole tree of files
this is what the tables do with files taken as what they stand for, as long as no entry turns into a
path variable; `IsolateCalm` says which names make sure of that. `IsolateFiles` says what table a file
with its includes should load as, `IsolateChoice` what else it can load as when rows are spelled alike,
`IsolateLoad` that one of these is what is loaded, and when it panics, and `IsolateMeaning` that
querying the table means evaluating every condition directly. `IsolateComplete` compares that with
reading conditions as plain formulas, `IsolateApart` says when the rows of a file can be told apart,
`IsolateBlocks` which blocks an answer is made of and so which command and mode it has, and
`IsolateLimits` exactly when a file loads, with the inputs on which the compiler does not do what one
would expect. `PosixRel` is the relative path function beside it, and `CleanPaths` path cleaning and
joining.

**Flags for protobuf messages** (`client/flagpb`). `FlagMessages` prints nested and repeated messages,
`FlagParser` parses them, `FlagSpelling` says what flags written by hand mean, and `FlagRoundTrip` and
`FlagSafety` prove that parsing what was printed gives the message back, up to what leaves no flag, and
that parsed messages are well typed.

**The lease lock** (`appengine/memlock`). `Memlock` is a state machine over the memcache calls of any
number of clients.

**Tumble** (`tumble`). `TumbleShards` and `TumbleKeys` have the shard arithmetic and the journal keys.
`TumbleStore` is the store with a history of what became of each mutation, `TumbleBatch` one attempt of
a processor, `TumbleEffect` what it leaves in the store, `TumbleProcess` the procedure around it,
`TumbleAttempt` whether it can delete what has not run. `TumbleSystem` interleaves transactions and any
number of crashing processors; `TumbleConservation` proves that mutations are not lost, and exactly when
one can be; `TumbleRefinement` connects the procedure with the system.

**The archiver's first stages** (`client/archiver`). `ArchiverDedupe` is the deduplication loop,
`ArchiverHandoff` the hand-over of digests to duplicates, at the level of single locks.

**Managed directories** (`deploytool/managedfs`). `ManagedPlaces` says where registered directories are,
`ManagedFiles` what a cleanup leaves, `ManagedSurvival` whether what was made survives the cleanup of
any directory, and `ManagedDirs` has the objects, the cleanup of one of them, and when it panics.

**Smaller ones.** `Heredoc` is the rewriting of heredocs in text protos (`common/proto`), and
`HeredocText` what it makes of a text, character by character; `Timeout` is the pRPC timeout header
(`grpc/prpc`), in 64-bit arithmetic.

`Text` has strings, numbers, joining and splitting, and `Ints` the 64-bit ranges.

Main results: `IsolateMeaning.MeaningPreserved`, `IsolateLoad.LoadIsolateAsConfig`,
`IsolateMerge.MergeHomomorphism`, `IsolateBlocks.QueryBlocks`, `IsolateDirectories.TreePreserved`,
`IsolateLimits.LoadsExactly`, `FlagSafety.PrintThenParse`, `FlagSpelling.FlagSets`,
`Memlock.MutualExclusion`, `Memlock.FreeCanBeTaken`, `TumbleEffect.CommitEffect`,
`TumbleConservation.AnonymousNeverLost`, `TumbleConservation.LossExact`,
`TumbleRefinement.ProcessRootIsRun`, `ArchiverHandoff.NoDeadlock`, `ArchiverHandoff.HandedOff`,
`PosixRel.RelExact`, `ManagedFiles.CleanedExact`, `ManagedSurvival.EnsuredSurvives`,
`ManagedDirs.PanicExact`, `Heredoc.ParseMultilineStrings`, `HeredocText.HeredocReplaced`,
`Timeout.RoundTrip`.

## Where code and documentation differ

The models follow the code.

- `configName.compare` (client/isolate/format.go:1027) says that bound values come before unbound ones;
  the code puts unbound ones first, so the global block is folded first.
- `LoadIsolateAsConfig` has no documented limit on values, but when two conditions compare a variable
  with an integer and with a string spelled like it, `setConfig` panics (`LookalikePanics`); when one
  condition does, the file loads and one of its two rows is lost, as the order of a map has it
  (`SilentLoss`, `GivenValueLost`); `LoadsExactly` says when neither happens; integers that are not
  characters share a slot (`LargeIntegersLost`); and a condition is not applied when a value that no
  condition mentions has to be read to decide it (`UnmentionedValueLost`).
- `ConfigSettings.union` says that entries are rebased only if they do not start with `<(`
  (client/isolate/format.go:403-404); one that is rebased can start with it afterwards, and then stands
  for something else (`RebasedMeans`, `VariableAppears`, `VariableLost`).
- A Python literal is translated to a Go literal with the same text, but the condition is compared with
  the spelling of the Go literal (client/isolate/format.go:928): `LiteralMatchesText` says when that
  matters. A quoted number is never met from the command line (`QuotedNumberNeverHolds`).
- `ProcessMaxBatchSize` is documented to mean "no limit" when negative (tumble/config.go:88); the batch
  then ends after the first result (`EmptyBatch`).
- Tumble's mutations are documented to be retried until they succeed (tumble/model_mutation.go:64-67). A
  named mutation can be lost: the processor deletes by name, so a mutation put under a name while an
  earlier one of that name is being processed can be deleted without having run (`LossExact`), and one
  put by its own predecessor is, unless the delete in the transaction is refused (`OwnNameLost`).
  Anonymous ones are never lost.
- `calcDigest` is said to call `SetErr` on failure (client/archiver/archiver.go:495); it does not when
  the source cannot be opened, and duplicates linked before a failure are never released (`HandedOff`).
- `CleanUp` is said to delete the unmanaged files of a directory
  (deploytool/managedfs/filesystem.go:265). `EnsureDirectory` accepts `.` and `..` as names, registers
  them as such, and makes the directory where they lead. Such a directory can be deleted although it was
  added (`DotDotLost`); and since it can be another one under a new name, its own cleanup deletes what
  was added there with plain names, and also what is ignored (`AliasLost`). `EnsuredSurvives` says
  exactly when that happens; with plain names only it does not. `CleanUp` on a directory outside of the
  root can panic (`PanicExact`); under the root `..` the check takes `../..` to be below it. Under the
  root `/` or `.` a cleanup panics whenever there is anything to delete (`BareRootPanics`).
- `EncodeTimeout` says nothing of timeouts above 2562047 hours; they are decoded as negative.
- `ParseMultilineStrings` says that only lines with a character that is not white space count for the
  common leading white space; a blank first line counts too (`DroppedExact`). And blank lines are not
  written as empty ones (common/proto/multiline.go:165-166) but only lose the dropped bytes.

## Model

| member | source | states |
|---|---|---|
| `IsolateValues.CompareZero` | client/isolate/format.go:567-601 | compare is 0 exactly on equal values, and antisymmetric |
| `IsolateValues.CompareTransitive` | client/isolate/format.go:567-601 | compare is transitive, so with CompareZero it is a total order of unbound, integer and string values |
| `IsolateValues.ValueKeyClash` | client/isolate/format.go:610-618 | exactly which two different values have the same slot key: two integers that both become the replacement character (one of them may be that character), or 126 and the empty string |
| `IsolateValues.CompareNamesZero` | client/isolate/format.go:1026-1035 | the order of configuration keys is 0 exactly on equal keys, and antisymmetric |
| `IsolateValues.CompareNamesTransitive` | client/isolate/format.go:1026-1035 | the order of configuration keys is transitive |
| `IsolateValues.NameKeyAlike` | client/isolate/format.go:1044-1054 | two keys over the same variables fall on one map key if and only if they bind the same variables and the values are spelled alike |
| `IsolateValues.SpellingInjective` | client/isolate/format.go:1044-1054 | among values with no integer spelled like a string, equal spellings mean equal values |
| `IsolateValues.CompareExactly` | client/isolate/format.go:567-601 | a value comes before another one exactly if it is unbound and the other is not, or a number and the other a text, or a smaller number, or a text that is smaller at the first byte that differs or shorter |
| `IsolateValues.MakeValueExactly` | client/isolate/format.go:546-554 | a given value is a number exactly if it is decimal digits with or without a sign and fits 64 bits, and otherwise a text |
| `IsolateCondition.EqualityExactly` | client/isolate/format.go:911-934 | an equality is a variable on the left and on the right a text or a number that fits 64 bits, with that value |
| `IsolateCondition.AcceptedExactly` | client/isolate/format.go:775-817 | exactly equalities, and their combinations with and, or and parentheses, are accepted |
| `IsolateCondition.CollectValuesCorrect` | client/isolate/format.go:775-817 | processConditionAst succeeds exactly on accepted conditions, and adds for every equality a value under its slot key and nothing else |
| `IsolateCondition.MeaningMonotone` | client/isolate/format.go:857-900 | binding more variables never changes a decided result |
| `IsolateCondition.MeaningHolds` | client/isolate/format.go:874-900 | when every variable a condition names is bound, its three-valued meaning is the plain boolean one |
| `IsolateCondition.NothingBoundUndecided` | client/isolate/format.go:888-892 | with nothing bound no condition is decided |
| `IsolateCondition.ConditionEvaluator.Eval` | client/isolate/format.go:874-900 | the evaluator with its stop flag computes the left-to-right three-valued meaning: it sets the flag exactly when that is undecided, and returns true exactly when that is true |
| `IsolateCondition.Evaluate` | client/isolate/format.go:857-866 | an error exactly when the meaning is undecided, otherwise the decided truth value |
| `IsolateOdometer.ListValues` | client/isolate/format.go:630-636 | ranging over a set of values lists every value once, in some order |
| `IsolateOdometer.NumberCarry` | client/isolate/format.go:652-661 | resetting a full wheel and advancing the next keeps the mixed-radix number of the wheels |
| `IsolateOdometer.ReadTuple` | client/isolate/format.go:650-663 | the inner loop carries without changing the number; it gives up only when the number has reached the product of the lengths, and otherwise reads the tuple at the wheels |
| `IsolateOdometer.TurnOdometer` | client/isolate/format.go:646-667 | tuple k is the mixed-radix expansion of k for every k below the product; the return of an internal error is unreachable |
| `IsolateOdometer.ShownDistinct` | client/isolate/format.go:646-667 | no tuple is shown twice |
| `IsolateOdometer.FullTurn` | client/isolate/format.go:646-667 | a full turn shows exactly the product of the value sets |
| `IsolateOdometer.CartesianProductOfValues` | client/isolate/format.go:624-668 | exactly the tuples of the product, each once; an error exactly when some value set is empty; and nothing at all without variables |
| `IsolateMatch.MeaningAgree` | client/isolate/format.go:874-900 | the meaning only depends on the variables the condition names |
| `IsolateMatch.TryMask` | client/isolate/format.go:832-847 | one evaluation adds the masked tuple under its key exactly when it is decided to be true |
| `IsolateMatch.TryConfigs` | client/isolate/format.go:830-849 | the loop over full configurations tries every tuple with one mask and keeps what was found |
| `IsolateMatch.MatchConfigs` | client/isolate/format.go:819-855 | panics exactly above 60 variables; otherwise returns one row for the key of every partial binding on which the condition is decided to be true, only such bindings, and no key twice |
| `IsolateMatch.MasksArePartialBindings` | client/isolate/format.go:827-846 | masks of full tuples are exactly the bindings of any subset of the variables to values from the conditions |
| `IsolateRebase.RebasedMeans` | client/isolate/format.go:444-463 | for all absolute directories and entries: a rebased entry stands for the same file if and only if it does not start with what looks like a path variable |
| `IsolateRebase.VariableAppears` | client/isolate/format.go:456-461 | an entry that does, in a directory whose name starts with a less-than sign and a parenthesis |
| `IsolateRebase.RebaseFiles` | client/isolate/format.go:444-473 | the loops give a sorted list without repetitions of exactly the entries of the one side and the rebased ones of the other |
| `IsolateRebase.Merge` | client/isolate/format.go:405-475 | union never fails between absolute directories, takes the directory of the side with the command, and stands for the union of the files of both, with the command and mode of the left one first, when no entry turns into a path variable |
| `IsolateDirectories.QueryAlongFiles` | client/isolate/format.go:250-272 | as long as no entry turns into a path variable, the fold over the rows that apply, in any order of rows, gives entries that stand for exactly their files, each taken in its own directory |
| `IsolateDirectories.IncludesMeant` | client/isolate/format.go:93-152 | invariant of the loop over includes, in whatever directories they lie: as long as no entry turns into a path variable, the table of entries as they are written stands for the table of what they stand for |
| `IsolateDirectories.TreePreserved` | client/isolate/format.go:93-272 | for a whole tree of files in any directories and every configuration, as long as no entry turns into a path variable in a merge: the entries of the query stand, in its directory, for exactly the absolute files of the global blocks and of the conditions that apply; its command is that of a block that applies, and its directory is that of the file with this block; its mode is that of a block that applies; the command and the mode of the top global block win |
| `IsolateCalm.CalmTreeLoads` | client/isolate/format.go:405-475 | when no part of a directory or of an entry of the tree looks like a path variable, none turns into one, neither in loading nor in any query |
| `IsolateCalm.CalmUnion` | client/isolate/format.go:405-475 | settings in which no part looks like one can be merged, whatever their directories, and none does then |
| `IsolateCalm.UnionOfAssociative` | client/isolate/format.go:405-475 | merging such settings is associative: the same directory, and entries that stand for the same files |
| `IsolateCalm.VariableLost` | client/isolate/format.go:456-461 | an entry of a directory whose name looks like a path variable does not survive a merge |
| `IsolateTable.StableSortCorrect` | client/isolate/format.go:299-302 | the stable sort orders rows by key and keeps the order of the values of each key |
| `IsolateTable.StableSortGrouped` | client/isolate/format.go:299-316 | grouping rows by key gives the same table before and after sorting |
| `IsolateTable.OrderedUnique` | client/isolate/format.go:237-245 | a table has only one sorted list of rows, whatever order it was ranged over in |
| `IsolateMerge.SortIsListing` | client/isolate/format.go:237-245 | sorting the rows of a table in any order gives the same list |
| `IsolateMerge.WidenOffers` | client/isolate/format.go:320-353 | a row widened to more variables applies to a configuration exactly when the old row applies to its old part |
| `IsolateMerge.MergeOffers` | client/isolate/format.go:299-316 | a merged table offers the files of both tables and nothing else |
| `IsolateMerge.QueryFiles` | client/isolate/format.go:250-269 | a query returns exactly the files of the rows that apply |
| `IsolateMerge.MergeHomomorphism` | client/isolate/format.go:284-318 | querying the union of two tables over different variables gives, file by file, what querying each table with its own variables gives |
| `IsolateConfigs.UniqueMergeSortedStrings` | client/isolate/utils.go:37-60 | the merge of two strictly sorted lists is strictly sorted and has exactly their elements; its assertions hold |
| `IsolateConfigs.Configs.constructor` | client/isolate/format.go:231-235 | a new table has the given variables and no rows |
| `IsolateConfigs.Configs.SetConfig` | client/isolate/format.go:275-282 | adds the row, or panics exactly when another row is spelled alike |
| `IsolateConfigs.Configs.Pairs` | client/isolate/format.go:237-241 | ranging over the map yields the rows of the table, each once |
| `IsolateConfigs.MapVariables` | client/isolate/format.go:322-336 | maps each new variable to its old position or to none; the panic for unreachable code is unreachable |
| `IsolateConfigs.Configs.ExpandConfigVariables` | client/isolate/format.go:320-353 | the rows are those of the table widened to the new variables |
| `IsolateConfigs.MergeAdjacent` | client/isolate/format.go:303-316 | the loop over sorted rows stores the grouped table, or panics exactly when two of its rows fall on one map key |
| `IsolateConfigs.Configs.Union` | client/isolate/format.go:284-318 | the new table is the merge of both over all variables, strictly sorted; it panics exactly when two different rows of the merge are spelled alike |
| `IsolateConfigs.Configs.AnyCommand` | client/isolate/format.go:126-132 | whether some row has a command |
| `IsolateConfigs.Configs.DropCommands` | client/isolate/format.go:143-145 | every row loses its command and keeps the rest |
| `IsolateConfigs.Configs.GetConfig` | client/isolate/format.go:250-269 | the fold of the applicable rows in the order of the keys, whatever order the map is ranged over in |
| `IsolateFiles.KeptValues` | client/isolate/format.go:712-733 | the values kept for each variable of a file come from its equalities, each under its own slot, and every equality has its slot filled |
| `IsolateFiles.ConditionTable` | client/isolate/format.go:819-855 | the table of a condition has a row for exactly the partial bindings that decide it to be true |
| `IsolateMeaning.ConditionOffers` | client/isolate/format.go:819-900 | some row of the compiled condition applies to a configuration exactly when the condition is decided to be true by its known values |
| `IsolateMeaning.StageOffers` | client/isolate/format.go:104-124 | the global block and the first conditions offer exactly their files |
| `IsolateMeaning.IncludesOffer` | client/isolate/format.go:133-150 | the table with some includes merged offers exactly the own files and theirs |
| `IsolateMeaning.MeaningPreserved` | client/isolate/format.go:95-152 | for every file with all its includes and every configuration: querying the compiled table gives exactly the files of evaluating each condition directly, values no condition mentions counting as unbound |
| `IsolateComplete.AllLiteralsKept` | client/isolate/format.go:799-803 | every literal stays in the value sets if and only if no two literals of a variable share a slot |
| `IsolateComplete.AppliesExactly` | client/isolate/format.go:857-900 | under a full configuration a condition applies if and only if it holds and is decided by the mentioned values |
| `IsolateComplete.Sound` | client/isolate/format.go:857-900 | for a full configuration, direct evaluation gives only files of global blocks and of conditions that hold |
| `IsolateComplete.QuerySound` | client/isolate/format.go:95-152 | every file a query of the loaded table returns for a full configuration, whichever of rows that are spelled alike were kept, belongs to a global block or to a condition that holds |
| `IsolateComplete.Complete` | client/isolate/format.go:857-900 | if every value of the configuration is mentioned, direct evaluation gives exactly the files of the global blocks and of the conditions that hold |
| `IsolateComplete.QueryComplete` | client/isolate/format.go:95-152 | and so does a query of the compiled table |
| `IsolateChoice.PicksAll` | client/isolate/format.go:842-855 | of rows that are all spelled apart nothing is lost |
| `IsolateChoice.StorableClear` | client/isolate/format.go:275-282 | if no two rows of the compiled table are spelled alike, then no two rows of any condition in the tree are |
| `IsolateChoice.ClearCompile` | client/isolate/format.go:95-152 | if no two rows of one condition are spelled alike, the compiled table is the only one that can come about |
| `IsolateChoice.ChoiceOnlyLoses` | client/isolate/format.go:842-855 | whichever of rows that are spelled alike are kept, a query returns no file that direct evaluation does not give |
| `IsolateLoad.ProcessIsolate` | client/isolate/format.go:712-733 | an error exactly when a condition or a read_only value is not accepted; otherwise the kept values |
| `IsolateLoad.ConfigVariables` | client/isolate/format.go:735-742 | the variables, sorted |
| `IsolateLoad.Prepare` | client/isolate/format.go:104-114 | the table of the global block alone, and all tuples; the error for an empty value set does not occur |
| `IsolateLoad.LoadCondition` | client/isolate/format.go:115-120 | panics exactly above 60 variables; otherwise the rows stored for a condition are rows of its table, one for every spelling of a row |
| `IsolateLoad.AddCondition` | client/isolate/format.go:115-124 | one turn of the loop merges the stored rows of the next condition, and panics exactly above 60 variables or when two rows of the result are spelled alike |
| `IsolateLoad.LoadOwn` | client/isolate/format.go:104-124 | for the rows that were kept: the table of the file itself, never an error, and a panic exactly above 60 variables or when two rows are spelled alike |
| `IsolateLoad.AddInclude` | client/isolate/format.go:134-150 | one turn of the loop merges the included table, stripped of commands exactly when the file has one, and fails exactly when the include does or two rows of the result are spelled alike |
| `IsolateLoad.LoadIsolateAsConfig` | client/isolate/format.go:95-152 | for the rows that were kept: loads exactly their merged table if and only if all conditions are accepted, every file has at most 60 variables, and no two rows are spelled alike; otherwise, when all is accepted, it panics |
| `IsolateLoad.ExactOutcome` | client/isolate/format.go:95-152 | it loads the full compiled table if and only if all of that holds of the full table; and if the rows of every single condition are spelled apart, it panics whenever that does not hold |
| `IsolateLoad.BindVariables` | client/isolate/format.go:168-181 | the configuration of the given values, or the sorted list of exactly the missing variables |
| `IsolateLoad.LoadIsolateForConfig` | client/isolate/format.go:161-197 | unavailable exactly when the file does not load; otherwise exactly the missing variables, or settings with no file that direct evaluation does not give; and when no two rows are spelled alike with exactly its files, and the command and the read-only mode of blocks that apply, those of the top global block before any other |
| `IsolateBlocks.ValueOfIncludes` | client/isolate/format.go:110-152 | a row of the compiled table has the settings of its blocks, in this order of precedence: those of the file itself, in order, and then those of its includes, from the last to the first, without their commands if the file itself has one |
| `IsolateBlocks.QueryBlocks` | client/isolate/format.go:250-272 | the answer to a query has the files of a list of blocks, and the first command and the first mode in that list, which starts with the global block of the top file and goes on row by row |
| `IsolateBlocks.AnswerBlocksApply` | client/isolate/format.go:250-272 | the blocks in the list are exactly those that apply: the global blocks, and those of conditions that the known values decide to be true |
| `IsolateBlocks.ChoicesPreserved` | client/isolate/format.go:405-443 | the command is that of a block that applies, and there is none only if none of these has one; and so is the read-only mode |
| `IsolateBlocks.GlobalBlockWins` | client/isolate/format.go:405-443 | a command in the global block of the top file is the command, and a mode there is the mode |
| `IsolateBlocks.HasCommandExactly` | client/isolate/format.go:124-132 | a file has a command of its own exactly if its global block has one, or a condition that can be decided true |
| `IsolateLimits.LookalikePanics` | client/isolate/format.go:275-282 | a file with a condition comparing a variable with an integer and one comparing it with that text, and whatever else, panics when it is loaded, if both literals are kept |
| `IsolateLimits.LookalikeFile` | client/isolate/format.go:710-733 | in the file with just these two conditions they are |
| `IsolateLimits.SilentLoss` | client/isolate/format.go:842-855 | with both comparisons in one condition the file loads, but under exactly one of the two values its file is missing, though the condition holds under both |
| `IsolateLimits.GivenValueLost` | client/isolate/format.go:842-855 | and that value can be the integer, which a command line can give |
| `IsolateApart.CompiledRows` | client/isolate/format.go:819-855 | the rows of the compiled table are exactly the partial bindings to kept literals under which a condition of the tree is decided to be true, and the empty one |
| `IsolateApart.StorableExactly` | client/isolate/format.go:275-282 | the compiled table can be stored if and only if no two of these bindings are spelled alike |
| `IsolateApart.ClearExactly` | client/isolate/format.go:842-855 | no row of a condition is lost, whatever the order of a map, if and only if no two bindings that decide one condition are spelled alike |
| `IsolateApart.NoLookalikeCompiles` | client/isolate/format.go:275-282 | if no integer is spelled like a string among the literals of a variable, the table can be stored |
| `IsolateLimits.LoadsExactly` | client/isolate/format.go:95-152 | a file loads as its full table if and only if its conditions are well formed, it has at most 60 variables per file, and no two bindings to its literals that decide conditions of the tree are spelled alike; if only such of different conditions are, it panics |
| `IsolateLimits.NoLookalikeLoads` | client/isolate/format.go:95-152 | an accepted file with at most 60 variables per file and no integer spelled like a string loads as its full table |
| `IsolateLimits.LargeIntegersLost` | client/isolate/format.go:610-618 | of two integers beyond the last character the condition on the earlier one never applies, though it holds |
| `IsolateLimits.UnmentionedValueLost` | client/isolate/format.go:830-846 | an alternative is not applied when the other side reads a value no condition mentions, though it holds |
| `IsolateLimits.QuotedNumberNeverHolds` | client/isolate/format.go:546-554 | a comparison with a quoted text can be met from the command line if and only if the text is not an integer |
| `IsolatePython.ReadSpelled` | client/isolate/format.go:981-1010 | scanning a spelled literal gives its items back and stops at its closing quote |
| `IsolatePython.GoItemsMeanTheSame` | client/isolate/format.go:989-1007 | item by item the Go literal denotes what the Python literal does, has no bare inner quote and no escaped apostrophe |
| `IsolatePython.PythonToGoString` | client/isolate/format.go:981-1010 | the loop over characters with its escaped flag emits the translation of the literal and returns the rest, or fails exactly when the literal is not closed |
| `IsolatePython.SpellingIsTextExactly` | client/isolate/format.go:926-929 | the spelling of the Go literal is the text it stands for if and only if no item is a double quote or an escape other than that of an apostrophe |
| `IsolatePython.LiteralMatchesText` | client/isolate/format.go:926-929 | an equality with a literal holds for the very text it stands for if and only if that is so |
| `IsolatePython.ReplaceByRuns` | client/isolate/format.go:964-979 | replacing the word-bounded pattern replaces exactly the maximal runs of word characters that are the word |
| `IsolatePython.OperatorsByRuns` | client/isolate/format.go:964-981 | outside of literals exactly the words and are replaced by two ampersands, and exactly the words or by two bars |
| `IsolatePython.PythonToGoNonString` | client/isolate/format.go:967-979 | translates up to the first quote |
| `IsolatePython.SegmentsSpell` | client/isolate/format.go:937-962 | the two-phase scan uses up the whole condition |
| `IsolatePython.PythonToGoCondition` | client/isolate/format.go:937-962 | the condition with every piece of code and every literal translated, or an error exactly when a literal is not closed |
| `IsolatePython.TranslationScans` | client/isolate/format.go:937-962 | scanning the translated condition gives exactly the translated pieces |
| `PosixRel.PosixRel` | client/isolate/utils.go:76-135 | the scan over four indices and the filled buffer compute the path up to the last shared directory and down again, or fail where a leading dot-dot of the base or a root is in the way |
| `PosixRel.ScanStep` | client/isolate/utils.go:92-110 | one turn of the scan finds the next shared component, or stops exactly at the first difference |
| `PosixRel.UpAndDown` | client/isolate/utils.go:114-132 | the buffer is filled exactly to its computed size |
| `PosixRel.RelLeadsThere` | client/isolate/utils.go:62-70 | joining the base and the relative path and cleaning gives the target |
| `PosixRel.NoneLeadsThere` | client/isolate/utils.go:85-113 | where posixRel fails no relative path leads from the base to the target |
| `PosixRel.RelExact` | client/isolate/utils.go:62-135 | for all paths: the result leads from base to target, and there is a result if and only if any relative path does |
| `FlagMessages.MarshalUntyped` | client/flagpb/marshal.go:14-16 | the flags are those of the message, its maps and the maps within it each in some order |
| `FlagMessages.AppendFlags` | client/flagpb/marshal.go:18-71 | appends the flags of the value, for some order of its maps |
| `FlagMessages.AppendEntries` | client/flagpb/marshal.go:26-35 | the loop over a map appends the flags of every field once |
| `FlagMessages.AppendElems` | client/flagpb/marshal.go:37-48 | the loop over a list puts the bare flag before every element that follows a message |
| `FlagParser.ParseOneFlag` | client/flagpb/unmarshal.go:81-198 | parses what is left after one flag to the same result, with fewer arguments |
| `FlagParser.Parse` | client/flagpb/unmarshal.go:66-79 | the loop computes the meaning of the whole flag list |
| `FlagSpelling.FlagSets` | client/flagpb/unmarshal.go:80-181 | for every scalar type and every path, with one or two dashes: a name with a value behind an equals sign, or in the next argument unless it is a bool, sets the field to the value that the text spells, or appends it; numbers are decimal digits in the range, with a sign if the type has one, and the twelve bool texts are listed |
| `FlagSpelling.BareFlagSets` | client/flagpb/unmarshal.go:136-143 | a name alone sets a bool to true, and appends an empty message to a repeated message field |
| `FlagSpelling.FlagFails` | client/flagpb/unmarshal.go:144-181 | the first error of a flag for an existing field: no value where one is needed, or already set and not repeated, or a text that spells no value of the type |
| `FlagSpelling.NotAFlag` | client/flagpb/unmarshal.go:70-105 | blank arguments are skipped, and no dash, three dashes, or no name are errors |
| `FlagSpelling.NoSuchField` | client/flagpb/unmarshal.go:106-131 | an unknown name, or what is wrong with the path to it, is the error |
| `FlagSpelling.PathFails` | client/flagpb/unmarshal.go:190-240 | the first name on a path that is not a field, not a message field, or of an unknown type decides the error |
| `FlagRoundTrip.WithSubTwice` | client/flagpb/unmarshal.go:245-266 | storing a sub-message twice is storing the last one |
| `FlagRoundTrip.GetUpdate` | client/flagpb/unmarshal.go:213-269 | the message at a path is the one stored there |
| `FlagRoundTrip.UpdateTwice` | client/flagpb/unmarshal.go:213-269 | storing at a path twice is storing the last one |
| `FlagRoundTrip.SplitKeyValueAt` | client/flagpb/unmarshal.go:350-362 | a flag is split at its first equals sign |
| `FlagRoundTrip.PrintedFlag` | client/flagpb/unmarshal.go:81-198 | a flag with a dotted path assigns its value to the field at the path |
| `FlagRoundTrip.ScalarRoundTrip` | client/flagpb/marshal.go:50-62 | a printed scalar is parsed back into its field, for every type and path |
| `FlagRoundTrip.MoreMessages` | client/flagpb/marshal.go:37-48 | messages after the first of a list are all kept, even empty ones |
| `FlagRoundTrip.FirstMessage` | client/flagpb/unmarshal.go:245-266 | a list of messages at any depth is parsed back, but for a first element that leaves no flag |
| `FlagRoundTrip.EntriesRoundTrip` | client/flagpb/unmarshal.go:66-198 | parsing the flags of some fields adds exactly their visible part to the message at the path |
| `FlagRoundTrip.FieldRoundTrip` | client/flagpb/unmarshal.go:66-198 | parsing the flags of a field not yet set sets it to its visible part |
| `FlagRoundTrip.RoundTrip` | client/flagpb/unmarshal.go:66-198 | parsing the printed flags of any well-typed message gives exactly its visible part |
| `FlagSafety.PruneExact` | client/flagpb/marshal.go:18-71 | the visible part is everything if and only if no field, and no first element of a list, is without a flag |
| `FlagSafety.PruneIsVisiblePart` | client/flagpb/marshal.go:26-35 | the visible part does not depend on the order of the maps |
| `FlagSafety.SubTyped` | client/flagpb/unmarshal.go:250-263 | in a well-typed message the type assertions of subMessages succeed and the list it takes the last element of is not empty |
| `FlagSafety.ApplyFlagTyped` | client/flagpb/unmarshal.go:81-198 | one flag keeps a message well typed |
| `FlagSafety.ParseTyped` | client/flagpb/unmarshal.go:66-79 | every message that parses is well typed, whatever the flags |
| `FlagSafety.RoundTripMessage` | client/flagpb/unmarshal.go:66-198 | for every well-typed message and order of its maps: the parsed flags are the visible part, and the whole message if and only if nothing in it is invisible |
| `FlagSafety.PrintThenParse` | client/flagpb/marshal.go:18-71 | end to end, on maps: whatever flags printing a well-typed message may give, parsing them gives its visible part |
| `FlagSafety.ParseThenPrint` | client/flagpb/unmarshal.go:50-72 | a message that was parsed from any flags, printed in any order of its maps and parsed again, is its visible part |
| `Memlock.NextKeepsInv` | appengine/memlock/memlock.go:94-123 | while its token is current, the entry is still the item a client read, which was free or its own |
| `Memlock.NextKeepsLeased` | appengine/memlock/memlock.go:94-136 | without eviction and with distinct clients, a lease that has not run out belongs to the client the entry names |
| `Memlock.NoOverwrite` | appengine/memlock/memlock.go:94-136 | in every run a step replaces a live entry that names a client only if it is a swap by a client of that name |
| `Memlock.MutualExclusion` | appengine/memlock/memlock.go:52-68 | in every run without early eviction and with distinct clients at most one client is in a lease that has not run out |
| `Memlock.HoldingWasGranted` | appengine/memlock/memlock.go:138-180 | as long as the function may run, also while its lock is being refreshed or was lost, its client was granted a lease it has not released |
| `Memlock.HolderCanRefresh` | appengine/memlock/memlock.go:94-123 | a client in its lease loses it only by a failing call: its get leads to a swap, and its swap is possible |
| `Memlock.GrantNames` | appengine/memlock/memlock.go:96-128 | in every run a granted Add or refresh leaves an entry that names its client for 16 seconds, and the client in its lease |
| `Memlock.ReleaseFrees` | appengine/memlock/memlock.go:99-121 | in every run an accepted release leaves an entry that names nobody and expires after one second, and its client has no lease any more |
| `Memlock.FreeCanBeTaken` | appengine/memlock/memlock.go:84-128 | in every reachable state with an entry that names nobody, a client that looks at it to take the lock goes on to a swap, which is possible and makes it the holder |
| `Memlock.ReleasedCanBeAdded` | appengine/memlock/memlock.go:122-131 | one second after a release with no write since, every starting client can add the entry anew and holds the lock then |
| `Memlock.ExpiredCanBeAdded` | appengine/memlock/memlock.go:122-131 | so it can 16 seconds after any last write |
| `Memlock.TakenKeepsOut` | appengine/memlock/memlock.go:90-93 | a client that finds somebody else in the entry gives up: it fails, has lost its lock, or has nothing to release; the entry stays |
| `Memlock.StarterTakesOver` | appengine/memlock/memlock.go:122-131 | a starting client whose Add stores nothing, on an entry that names nobody or itself, gets the lock by a look and a swap |
| `Memlock.HolderRefreshes` | appengine/memlock/memlock.go:158-167 | a holder that is named extends its lease by the timer, a look and a swap |
| `Memlock.HolderGivesBack` | appengine/memlock/memlock.go:158-174 | when its function has ended it frees the entry by a look and a swap |
| `Memlock.FailuresGiveUp` | appengine/memlock/memlock.go:84-117 | a failing call ends the attempt to lock, loses the lock, or ends the release, and leaves the entry |
| `Memlock.RunsFromGrant` | appengine/memlock/memlock.go:125-180 | in every run the function of a client starts exactly when it sees that it was granted the entry, by an Add or by the swap of its first look, and can run until its release is over |
| `Memlock.EvictionBreaksExclusion` | appengine/memlock/memlock.go:64-68 | with eviction two clients can be in a lease at once |
| `Memlock.EqualIdsBreakExclusion` | appengine/memlock/memlock.go:59-62 | with one name for two clients both can be in a lease at once |
| `TumbleShards.BoundsExact` | tumble/process.go:41-56 | the wrapped-around bounds of a valid shard are the exact ones |
| `TumbleShards.BoundsProper` | tumble/process.go:41-56 | low is below high exactly for valid shards |
| `TumbleShards.RoutedWithinBounds` | tumble/model_mutation.go:125-133 | for every shard count and every 64-bit value the shard it is routed to is valid and its bounds contain the value |
| `TumbleShards.BoundsOverlap` | tumble/process.go:41-56 | two shards share a value only if they are neighbours, and only their common bound |
| `TumbleKeys.AnonIDReads` | tumble/model_mutation.go:153 | the parts of an anonymous identifier can be read off again |
| `TumbleKeys.RenderInjective` | tumble/model_mutation.go:141-158 | different stored mutations have different datastore keys: none of two anonymous ones coincide, and none is spelled like a named one |
| `TumbleKeys.GroupOfKey` | tumble/process.go:424-426 | a stored mutation has the root as an ancestor exactly when its parent is in the group of the root |
| `TumbleStore.PutMutationsEffect` | tumble/model_mutation.go:135-167 | journalling stores each mutation under a key of its own and changes nothing else |
| `TumbleStore.PutMutationsSound` | tumble/model_mutation.go:135-167 | journalling under an unused version and round reuses no anonymous key and loses track of no mutation |
| `TumbleStore.ApplyNamedSound` | tumble/tumble.go:117-148 | putting and cancelling named mutations loses track of no mutation |
| `TumbleBatch.RunOneReady` | tumble/process.go:403-441 | one turn of the loop keeps the invariants the next one needs |
| `TumbleEffect.NamedAt` | tumble/tumble.go:117-148 | of several puts and cancellations the last one of a name decides what is stored under it |
| `TumbleEffect.RunOneEffect` | tumble/process.go:403-441 | one turn changes the store, at a key that its RollForward does not name, by what it journals and what it deletes |
| `TumbleEffect.RunOneNamed` | tumble/process.go:403-441 | at a name: the delete of the mutation that ran comes last, before it the last put or cancellation; a turn that has none of these changes nothing |
| `TumbleEffect.AlignedStep` | tumble/process.go:412-421 | after every turn the added entries of the two lists are exactly the journalled mutations whose root has the root of the group as a prefix and which, with delayed mutations, were looked at after the time they ask for, with their own keys |
| `TumbleEffect.CommitEffect` | tumble/process.go:392-444 | the effect of every attempt. At each anonymous key, and each name no RollForward puts or cancels: the old contents plus everything successful items journalled minus the successful items of the group whose delete was accepted. At each name: what the last turn to touch it left. Records are for the root of their mutation, with its hash, at now or the time it asks for if that is later or has a high priority. The other successes, in order, are left to delete; the lists are aligned; the tasks to fire are those of the journalled records, and the earlier ones |
| `TumbleBatch.ShardsAccumulate` | tumble/process.go:386-440 | shards collected by aborted attempts are kept |
| `TumbleAttempt.RunOneClean` | tumble/process.go:403-441 | one turn deletes no mutation under a key that has not run, unless the name was put again |
| `TumbleAttempt.RunFromClean` | tumble/process.go:392-444 | nor does a whole attempt |
| `TumbleProcess.GetBatchByRoot` | tumble/process.go:284-308 | as many results that are not banned as the limit allows; without a positive limit only the first result is looked at |
| `TumbleProcess.EmptyBatch` | tumble/process.go:290-306 | with a limit the batch is empty exactly when all results are banned; without one, as soon as the first is |
| `TumbleProcess.BatchExact` | tumble/process.go:284-308 | a batch has only results that are not banned, and all of them if the limit allows |
| `TumbleProcess.DeleteAllExact` | tumble/process.go:450-458 | after the commit exactly the left over keys whose delete goes through are gone, and nothing else has changed |
| `TumbleProcess.LoadFilteredMutations` | tumble/process.go:310-344 | the two lists hold the mutations that are stored and decodable, in order; an error exactly when one cannot be read |
| `TumbleProcess.LoadableExact` | tumble/process.go:310-344 | a mutation is loaded under a key if and only if it is the one stored there and can be decoded |
| `TumbleProcess.PutAll` | tumble/model_mutation.go:135-167 | the loop builds the keys, the records and the set of shards of all mutations |
| `TumbleProcess.AppendDue` | tumble/process.go:412-421 | the loop appends the due mutations of the group to both lists, which stay aligned |
| `TumbleProcess.RunAttempt` | tumble/process.go:392-444 | the loop over the growing lists computes the specified attempt |
| `TumbleProcess.RunInTransaction` | tumble/process.go:388-448 | only the first attempt that commits changes the store; every retry starts from the loaded lists with nothing to delete |
| `TumbleProcess.ProcessRoot` | tumble/process.go:356-458 | from query to deletes: the store, the ban set and the fired shards are those of the committed attempt; on failure nothing is banned or fired |
| `TumbleSystem.StepInv` | tumble/process.go:356-458 | every step keeps: all mutations accounted for, anonymous keys used once and older than their group, processors know only written keys |
| `TumbleSystem.BatchReady` | tumble/model_mutation.go:141-153 | a processor that has loaded a batch never journals under a key that is taken |
| `TumbleConservation.StepClean` | tumble/process.go:356-458 | no step removes an unrun mutation stored under a key, unless the name is put while a processor holds it |
| `TumbleConservation.AnonymousNeverLost` | tumble/process.go:356-458 | in every run of any number of processors, with crashes, aborts and failures anywhere, every anonymous mutation is stored or its RollForward was committed |
| `TumbleConservation.NoneLost` | tumble/process.go:356-458 | in every run that puts no name a processor holds, every mutation is stored, has run, was cancelled, or was overwritten by name |
| `TumbleConservation.LossExact` | tumble/tumble.go:95-137 | from any reachable state and with no further put of the name: some continuation loses the mutation stored under a key if and only if a processor holds an earlier one under that key |
| `TumbleConservation.OwnNameLost` | tumble/process.go:423-436 | for every item of every attempt: if the last thing its RollForward does with its own name is a put, and the delete in the transaction is accepted, the mutation put is lost and has not run |
| `TumbleConservation.JournalKeysDistinct` | tumble/model_mutation.go:141-158 | in every run no two mutations have the same datastore key but two of one name |
| `TumbleConservation.EveryCommit` | tumble/process.go:392-444 | the stated effect is that of every commit, of any outcome of its items, in every run |
| `TumbleRefinement.ProcessRootIsRun` | tumble/process.go:356-458 | what ProcessRoot leaves after any number of aborted attempts, with others acting between loading and the attempt that commits, is what a run of the system leaves |
| `ArchiverDedupe.DedupeLoop` | client/archiver/archiver.go:415-479 | whatever stage 2 accepts when, and whenever the archiver is cancelled: of the items that arrive before, the first ones are forwarded in push order, up to a rest that has built up, and each other one is linked to its first one; all later items and the rest are dropped; without cancellation there are none |
| `ArchiverDedupe.DedupeExact` | client/archiver/archiver.go:454-464 | an item is forwarded if and only if it is not a file or no earlier item has its path; every other item is linked once, to the earliest of its path |
| `ArchiverDedupe.LinksAreChildren` | client/archiver/archiver.go:278-295 | the links made are the lists the items end up with |
| `ArchiverHandoff.StepInv` | client/archiver/archiver.go:231-295 | after every step at the level of single locks the whole state is the one determined by where each goroutine stands |
| `ArchiverHandoff.NoDeadlock` | client/archiver/archiver.go:247-295 | although linking and hashing take two locks in opposite orders, some goroutine can go on until all is done |
| `ArchiverHandoff.RunsEnd` | client/archiver/archiver.go:247-295 | no run is longer than the work there is |
| `ArchiverHandoff.HandedOff` | client/archiver/archiver.go:231-295 | of the items stage 1 takes before it sees a cancellation: a duplicate of a hashed item has its digest in the end and was released exactly once; a duplicate that was linked to an item that failed while being read has the error and was released exactly if linked after that; one that was linked to an item that could not be opened was never released |
| `ManagedDirs.Dir.RegisterSubDir` | deploytool/managedfs/filesystem.go:150-181 | the sub-directory of that name is registered, below its parent and with its relative path; what was registered stays |
| `ManagedDirs.Dir.AddFile` | deploytool/managedfs/filesystem.go:244-263 | the file is registered and nothing else changes |
| `ManagedDirs.Dir.Ignore` | deploytool/managedfs/filesystem.go:129-135 | only the mark changes |
| `ManagedDirs.Dir.CleanEntry` | deploytool/managedfs/filesystem.go:295-323 | what becomes of one entry, and the panic exactly when it would be deleted and its path does not pass the check; then it stays, or is left as the panic in it leaves it |
| `ManagedDirs.Dir.CleanUpLocked` | deploytool/managedfs/filesystem.go:283-326 | the loop over the entries of a directory, and of its registered ones, panics exactly if one of them does, and otherwise leaves what cleanup should leave; either way it leaves at least what no cleanup may delete, and adds nothing |
| `ManagedDirs.Dir.CleanUp` | deploytool/managedfs/filesystem.go:269-281 | the walk up to the base: nothing happens below an ignored directory, and otherwise the directory is cleaned up, with what a panic leaves as before |
| `ManagedDirs.CleanUpOf` | deploytool/managedfs/filesystem.go:269-281 | the object under a registered path is at the place of that path and stands for what is registered there, and the walk up finds an ignored directory exactly if there is one on the path |
| `ManagedDirs.PanicExact` | deploytool/managedfs/filesystem.go:313-318 | a cleanup of a place can panic if and only if the place is not spelled as the root, with or without more behind it, or the root is the root of the disk or the current directory |
| `ManagedDirs.BareRootPanics` | deploytool/managedfs/filesystem.go:313-318 | under such a root a cleanup panics exactly when there is anything to delete |
| `ManagedPlaces.SubpathExact` | deploytool/managedfs/util.go:54-69 | the check on strings holds exactly for a path that is spelled as the root, with or without more behind it, under a root that is not the root of the disk or the current directory |
| `ManagedPlaces.PlaceIsMade` | deploytool/managedfs/filesystem.go:164-207 | the directory that is registered under a path, joined name by name, is the one that is made by joining all names at once, on any registered directory |
| `ManagedPlaces.ResolvedPlace` | deploytool/managedfs/filesystem.go:103-109 | wherever the root is, relative or not, a registered path leads on from it |
| `ManagedPlaces.PlainAt` | deploytool/managedfs/filesystem.go:103-109 | a registered path of plain names leads from the root to that path |
| `ManagedFiles.CleanedExact` | deploytool/managedfs/filesystem.go:265-326 | after cleanup an entry at any depth is there, unchanged if it is a file, if and only if it was there and is a registered file or directory or lies below an ignored one |
| `ManagedFiles.RegisterReaches` | deploytool/managedfs/filesystem.go:142-181 | registering a path makes every directory on it registered and keeps all that was |
| `ManagedFiles.StaysRegistered` | deploytool/managedfs/filesystem.go:234-263 | what was registered stays registered |
| `ManagedFiles.RegisterExact` | deploytool/managedfs/filesystem.go:142-181 | registering a path makes exactly the directories on it registered, besides those that were, and changes no mark and no file |
| `ManagedFiles.RegisterFileExact` | deploytool/managedfs/filesystem.go:244-263 | registering a file adds it to its directory and changes nothing else |
| `ManagedFiles.ShrunkUnreached` | deploytool/managedfs/filesystem.go:313-318 | what the check does not let pass is never deleted, with all that is in it |
| `ManagedFiles.ShrunkLoses` | deploytool/managedfs/filesystem.go:311-323 | what is not registered in a registered directory, is not below an ignored one and passes the check is deleted |
| `ManagedSurvival.AnyOutcome` | deploytool/managedfs/filesystem.go:269-326 | on the disk, a cleanup of any directory, also one that panics, leaves at least what the survival results are about |
| `ManagedSurvival.EnsuredSurvives` | deploytool/managedfs/filesystem.go:183-281 | for all roots, paths and names, and cleanups of the directory registered under any path q, whatever else is registered, ignored or on disk: a directory that was made with EnsureDirectory survives if and only if it is not below the place of q, or is registered below q under the names that lead there, or is spelled from q so that the check stops; a file made in it likewise, with its whole path. If both paths have plain names only, both survive |
| `ManagedSurvival.SafeFromBase` | deploytool/managedfs/filesystem.go:183-281 | for the cleanup of the base: the directory, if and only if it is outside of the tree or at a beginning of its path; the file, if and only if it is outside of the tree or no name is a dot or two dots; or nothing can be deleted under the root |
| `ManagedSurvival.DotDotLost` | deploytool/managedfs/util.go:50-52 | a directory made by way of two dots is deleted with its file by the cleanup of the base |
| `ManagedSurvival.AliasLost` | deploytool/managedfs/filesystem.go:269-281 | a directory registered by way of two dots is the base with nothing registered in it: its cleanup deletes what was made with plain names, also what is ignored, with its file |
| `HeredocText.StartExactly` | common/proto/multiline.go:17 | a line starts a heredoc exactly if it is a text, two angles, and a word among blanks: then these are its text and its word |
| `HeredocText.EndsExactly` | common/proto/multiline.go:19 | a line ends it exactly if it is that word among blanks |
| `HeredocText.HeredocReplaced` | common/proto/multiline.go:127-181 | lines without a start, a start, lines that do not end it, and one that does are rewritten to the first ones, the text before the angles, a literal that is read as the dedented lines, and what the rest is rewritten to, on a new line |
| `HeredocText.EscapeExactly` | common/proto/multiline.go:68-89 | exactly the printable ASCII characters are written as they are, but for the quote and the backslash |
| `HeredocText.NoTerminator` | common/proto/multiline.go:176-178 | without a line that ends it the start of a heredoc is an error |
| `HeredocText.NoHeredoc` | common/proto/multiline.go:127-181 | a text without the start of a heredoc stays as it is |
| `HeredocText.SpaceExactly` | common/proto/multiline.go:21-28 | the UTF-8 bytes of exactly the white space characters of Unicode count as white space |
| `Heredoc.LeadEnds` | common/proto/multiline.go:21-28 | what follows the white space at the start of a line does not start with a white space character, of any of those in Unicode |
| `Heredoc.FindLeftWhitespace` | common/proto/multiline.go:21-28 | the loop over characters finds the white space at the start |
| `Heredoc.FindBytewiseLCP` | common/proto/multiline.go:30-48 | the loop computes the longest common prefix |
| `Heredoc.DroppedLongest` | common/proto/multiline.go:158-170 | what is dropped is the longest text that starts the white space of the first line and of every line that is not blank |
| `Heredoc.DroppedExact` | common/proto/multiline.go:108-112 | it is all that the white space of the lines shares if and only if the first line is not blank or starts with what the others share |
| `Heredoc.DroppedFromLine` | common/proto/multiline.go:66-67 | what is dropped from a line that is not blank is exactly that |
| `Heredoc.WriteProtoStringLines` | common/proto/multiline.go:53-92 | the loops write the escaped join of the lines behind the dropped bytes |
| `Heredoc.UnescapeAll` | common/proto/multiline.go:71-88 | unescaping what was written gives the bytes back |
| `Heredoc.LiteralStandsFor` | common/proto/multiline.go:53-92 | the literal stands for the lines without the dropped bytes, joined by newlines, and ends where it should |
| `Heredoc.NoStartUnchanged` | common/proto/multiline.go:102-106 | text without the start of a heredoc is not changed |
| `Heredoc.ConcatSplit` | common/proto/multiline.go:137 | splitting a text into lines loses nothing |
| `Heredoc.ParseMultilineStrings` | common/proto/multiline.go:127-181 | the scanner with its state variables replaces every heredoc up to its terminator by its literal and keeps all other text; an error exactly when a terminator is missing |
| `Timeout.DecodeEncoded` | grpc/prpc/timeout.go:47-98 | decoding an encoded timeout multiplies its count by its unit with wrap-around |
| `Timeout.DecodeUnits` | grpc/prpc/timeout.go:27-73 | a count of hours, minutes, seconds, milliseconds, microseconds or nanoseconds stands for that many of its length, in 64-bit arithmetic |
| `Timeout.DecodeErrors` | grpc/prpc/timeout.go:47-73 | a text that is too short, has another unit, or has no number before it, is an error |
| `Timeout.RoundTrip` | grpc/prpc/timeout.go:47-98 | a timeout is decoded as the least multiple of its unit that is not shorter, if and only if it is at most 2562047 hours; a longer one is decoded as negative; below ten to the eighth nanoseconds it is exact |
| `Timeout.ShortestUnit` | grpc/prpc/timeout.go:80-97 | the unit is the shortest one of which 99999999 are enough |
| `Timeout.NegativeExact` | grpc/prpc/timeout.go:80-83 | negative timeouts are written exactly, in nanoseconds |
| `Timeout.HeaderWellFormed` | grpc/prpc/timeout.go:75-98 | the header has at most eight digits and a unit if and only if the timeout is not negative |

## Left out

- IsolateTable.Union: the tables of the loader and of the queries have files as a set of what entries stand for; `IsolateDirectories` proves that this is what the written entries of a tree stand for. The check for Windows drives is not modelled.
- IsolateDirectories.TreePreserved: that no entry turns into a path variable is sufficient; for one entry it is also necessary (`IsolateRebase.RebasedMeans`), but another entry of the tree can happen to stand for the same file.
- IsolateDirectories.CompileDirs: the loader on entries as they are written is a function; its loops and its panics, which do not depend on entries, are in `IsolateLoad`. Which directory a query without a command has is not stated.
- IsolateCondition.Accepted: the Go expression parser, JSON5 and the reading of the file are foreign; conditions arrive as expression trees and files as trees of files, so an include that cannot be read or includes itself is not modelled. Literals are kept in the tree instead of in a map by position.
- IsolateOdometer.ProductLength: the number of tuples is unbounded; the Go product of the lengths could overflow.
- IsolateValues.Value: strings have no NUL, which neither a command line argument nor a Go literal can contain.
- IsolatePython.Operators: the regular expression is modelled by word boundaries between ASCII word characters; characters are not decoded from UTF-8.
- CleanPaths.CleanOf: `path.Clean`, `path.Join` and, on Unix, `filepath.Clean` and `filepath.Join` are foreign and modelled by their components, not by Go's buffer; `filepath.Rel` is taken to be the function that posixRel is a copy of.
- FlagParser.ApplyFlag: works on values; the parser's update of nested maps in place is a path update. Enums, bytes, floats and map entries are not modelled, nor is the conversion through JSON in UnmarshalMessage.
- FlagMessages.Flags: a list of lists is not a protobuf value and is only printed, not parsed.
- Memlock.Next: the calls of the lock and of its refresh goroutine are atomic steps; the user's function, logging and contexts are not modelled. Memcache itself is an entry with an expiration and a token.
- TumbleBatch.RunFrom: an attempt is a finite script of what happens to its items, so an attempt that never ends is not modelled; what RollForward does to other entities is not modelled either.
- TumbleStore.NewRecord: SHA-1 and the rounding of timestamps are parameters; the code version, the type name and the encoded data are left out. Unregistered types and encoding errors count as failing RollForwards. The tasks that PutNamedMutations fires by itself are not modelled.
- TumbleSystem.Next: entity-group versions grow with every transaction on the group, as the datastore promises; the multi-key deletes after a commit happen one by one; the query may show any stored mutation of its root, and delayed mutations are only delayed, never hidden for good.
- TumbleProcess.ProcessRoot: counters, logging, the work pool, the round delays and the early exit by timestamp in `process` only affect latency and are not modelled; task names are not injective and firing is best effort.
- ArchiverHandoff.HandedOff: items that arrive after stage 1 has seen a cancellation are not among its items; they are dropped, which `ArchiverDedupe.DedupeLoop` has. That a failure leads to a cancellation is not modelled: when it comes is left open. One hashing goroutine per item, without the limit of the pool; `done`, progress and tracing are not modelled. A release is counted, not waited for.
- ArchiverDedupe.DedupeLoop: the nil item that wakes the loop is not modelled; dropping an item is one step.
- Stages 3 and 4 of the archiver: batching, lookup and upload are network calls.
- ManagedFiles.Register: GetSubDirectory on a path is modelled on values; the objects register one sub-directory at a time. Locking and I/O errors are not modelled; of what a panicking cleanup leaves only bounds are stated, as the order of the entries is left open; symbolic links count as files.
- Heredoc.StartOf: the regular expressions are modelled by hand. UnmarshalTextML's parser is foreign.
- Task number allocation (appengine/tsmon/handler.go): that the numbers given to running instances stay distinct over housekeeping runs, and the search for gaps, are not modelled.
- Auth, HTTP, gRPC and pRPC plumbing, settings pages, command line wrappers and generated code: thin wrappers and I/O.
