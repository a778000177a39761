# Verified model of ah-there-it-is

A Dafny 4.11 model of the parts of the inventory application in which a wrong
step loses data or lies about it, and proofs of what those parts promise.
`dafny verify dfyconfig.toml` checks everything. Sources are cited as path and
lines of the repository.

## What is modelled

- **Search index** (`SearchIndex`). Nine triggers keep one derived row per item
  while items, aliases, tags and item_tags change under foreign-key cascades.
  The specification is the rebuild; the proof is an invariant over every
  sequence of statements, through the intermediate states of both cascades.
- **Parent maps** (`ParentMaps`, `DatabaseDoctor`, `PortableTrees`,
  `PortableLevels`, `LocationPaths`). One theory of walks, cycles and depths
  serves five loops: the doctor's cycle search, the memoised and the plain
  hierarchy check, the two depth computations with their level orders, and the
  ancestor fetch of the activity page. Nothing is assumed of a stored map.
- **Portable reader and parser** (`Utf8`, `ChunkedText`, `PortableJson`,
  `PortableSpools`, `PortableParser`). UTF-8 is section 3 of RFC 3629, JSON is
  sections 2 to 7 of RFC 8259. The recursive-descent parser works on the
  incremental reader and moves four arrays to disk; it is proved to refine an
  ordinary duplicate-refusing parser that works on the decoded file. What that
  one reads is tied to the printer, compact or with any white space between
  the tokens (`PortableLayout`).
- **Portable export and round trip** (`PortablePrinter`, `PortableExport`,
  `TagIndex`, `TagOrderStability`, `PortableRoundTrip`). The hand-framed text
  parses back to its rows; the one-pass tag numbering equals the sorted one;
  import then export keeps everything, and a second round changes nothing.
- **Recovery** (`CrossSchemaRollback`, `RestoreBackup`). Every primitive may
  happen, raise, or be interrupted; during the cross-schema rollback a
  competitor may create files at free active paths, and a validation may leave
  sidecars beside the file it opens. The disks record every state they pass
  through, so the claims cover a kill at any point; every ending but a return
  is tied to its fault.
- **Durable state machines** (`BatchCheckpoint`, `PhaseCheckpoint`,
  `CanonicalVerifier`, `Campaign`). Writers are proved against invariants of
  every run, validators against declared consistency, and the two against each
  other. Progress is proved beside safety: `BatchRuns` says which calls are
  accepted, of the calls alone, and that every batch can reach its merge; a
  killed verification can be resumed to its end.
- **Agent** (`WriteResolution`, `AgentCapabilities`, `AgentRunner`,
  `ResponsesSse`). Knowledge frozen per round, the unique-match decision
  repeated at write time, commit or rollback of whole runs, and the stream
  parser whose outcome does not depend on how the bytes were cut and is the
  answer the events of the stream give (`SseStreams`).

`Prelude`, `Sorting` and `Faults` hold shared vocabulary.

What the proofs showed about the source:

- `peek` fills once (`src/ah_there_it_is/portable_stream.py:83-86`), so a chunk
  that completes no character reads as the end of the input. For chunks of one
  to three bytes a valid file is then cut short exactly when some chunk
  completes no character (`DeliveredInFull`); with chunks of one or two bytes
  the parser can even accept a file because of it (`OneByteChunksEndEarly`,
  `TwoByteChunksEndEarly`). `Accepts` is the exact condition for every size.
- A string may name a lone surrogate by an escape, which `json.loads` accepts
  and a UTF-8 spool cannot hold: `append` raises
  (`src/ah_there_it_is/portable_stream.py:42-50`), so exactly the documents all
  of whose spooled records can be written are accepted (`LoneSurrogateIsRefused`).
- `create_backup` does not look for a log left at the safety backup's path
  (`src/ah_there_it_is/storage.py:1057-1076`). Its frames apply to the published
  copy, so the validated safety backup says the original for certain exactly
  when no frames stand there (`BackupSays`, `SafeExactlyWithoutFrames`,
  `LeftoverLogMisleads`).
- A validation of a database in WAL mode leaves a log and a shared-memory file
  beside it (`src/ah_there_it_is/database_doctor.py:134`). When the service
  check after the validation of the published candidate raises
  (`deploy/cross_schema_rollback.py:157`), these occupy the paths of the moved
  sidecars, and the handler links neither back (`ValidatorsFilesStay`). A single
  failure restores every active path, whenever it comes, exactly if neither
  validation leaves a new file (`SafeExactlyWithoutLeavings`).
- No trigger watches updates of item_tags; `RelinkKeepsIndexExactlyWhen` says
  when such an update is harmless.
- The one-pass tag index keeps the spelling met first in the document
  (`src/ah_there_it_is/storage.py:1830`), its twin the one of the lowest item
  id; they agree because validation refuses two spellings.
- A batch task without an identity passes the writer's own conditions once all
  tasks are recorded (`tools/agent/lifecycle_checkpoints.py:1571-1572`); the
  validator refuses it. Review and final-local heads are compared with the
  seed only by the validator. `GateIsExact` says that nothing else is left to it.
- A batch merge without recorded CI fails on a missing key
  (`tools/agent/lifecycle_checkpoints.py:1635`) and is modelled as a refusal.
- The stream parser dispatches an event that lacks its closing blank line,
  unlike section 9.2.6 of the HTML Living Standard.

Foreign parts are parameters: `group_concat`, `json.loads` and `json.dumps` on
lexemes, name normalisation and canonicalisation, git answers, recipe outcomes,
search candidates, inventory operations, model responses and executors are
arbitrary functions or values. `Faithful` and `PlainKeys` in `PortablePrinter`
and `PortableExport` state the little that is used of the JSON module: its
lexemes are well shaped and load back, and plain keys print as they stand.

## Model

| member | source | states |
|---|---|---|
| `SearchIndex.SearchDatabase.Run` | src/ah_there_it_is/db/search_schema.py:24-137 | after any sequence of inserts, updates and deletes on items, aliases, tags and item_tags, accepted or refused, the table equals what a rebuild of the current tables stores, and each item's row has its name, its description and attributes text or "" where they are NULL, and "" or the concatenation of exactly the names of its alias rows and of the tags linked to it |
| `SearchIndex.SearchDatabase.Execute` | src/ah_there_it_is/db/search_schema.py:24-137 | one statement: refused exactly when a key forbids it and then without effect, otherwise the base tables are those of the statement with its cascades, and the index equals a rebuild |
| `SearchIndex.SearchDatabase.ExecInsertItem` | src/ah_there_it_is/db/search_schema.py:24-37 | an inserted item gets a row with empty aliases and tags, which is its rebuilt row |
| `SearchIndex.SearchDatabase.ExecUpdateItemText` | src/ah_there_it_is/db/search_schema.py:38-47 | the three watched columns are rewritten and the aggregates kept |
| `SearchIndex.SearchDatabase.ExecUpdateItemOther` | src/ah_there_it_is/db/search_schema.py:38-47 | columns no trigger watches do not occur in the index |
| `SearchIndex.SearchDatabase.ExecDeleteItem` | src/ah_there_it_is/db/search_schema.py:48-53 | the two-step cascade: deleting an item first deletes its aliases and links, whose own triggers run, and the index still equals a rebuild |
| `SearchIndex.SearchDatabase.CascadeFrom` | src/ah_there_it_is/db/search_schema.py:85-121 | the cascaded deletions may come in any order |
| `SearchIndex.SearchDatabase.ExecInsertAlias` | src/ah_there_it_is/db/search_schema.py:54-65 | an alias is aggregated on insertion |
| `SearchIndex.SearchDatabase.ExecUpdateAlias` | src/ah_there_it_is/db/search_schema.py:66-84 | an alias moved to another item is dropped from the old owner and aggregated at the new one |
| `SearchIndex.SearchDatabase.ExecDeleteAlias` | src/ah_there_it_is/db/search_schema.py:85-96 | a deleted alias leaves the aggregate |
| `SearchIndex.SearchDatabase.ExecInsertTag` | src/ah_there_it_is/db/search_schema.py:97-137 | no trigger watches tag insertion and none is needed |
| `SearchIndex.SearchDatabase.ExecRenameTag` | src/ah_there_it_is/db/search_schema.py:123-137 | a renamed tag is refreshed at every item that carries it |
| `SearchIndex.SearchDatabase.ExecDeleteTag` | src/ah_there_it_is/db/search_schema.py:110-122 | deleting a tag fires only the triggers of its links, and that is enough |
| `SearchIndex.SearchDatabase.ExecInsertLink` | src/ah_there_it_is/db/search_schema.py:97-109 | linking a tag refreshes the item |
| `SearchIndex.SearchDatabase.ExecDeleteLink` | src/ah_there_it_is/db/search_schema.py:110-122 | unlinking a tag refreshes the item |
| `SearchIndex.SearchDatabase.Rebuild` | src/ah_there_it_is/db/search_schema.py:162-187 | a rebuild from any index content stores exactly one row per item, which shows the item's texts and its current aliases and tags |
| `SearchIndex.SearchDatabase.CheckConsistency` | src/ah_there_it_is/db/search_consistency.py:64-101 | on any tables and any index content the report is ok exactly when every item, and nothing else, has a row that shows it, and it names exactly the missing, extra and mismatched ids |
| `SearchIndex.RebuiltShows` | src/ah_there_it_is/db/search_schema.py:162-187 | the tables in which every item has a row that shows it, and no others are, are those a rebuild stores |
| `SearchIndex.ForeignKeysKept` | src/ah_there_it_is/db/search_schema.py:24-137 | every accepted statement, cascades included, keeps the foreign keys |
| `SearchIndex.RelinkKeepsIndexExactlyWhen` | src/ah_there_it_is/db/search_schema.py:97-122 | updating an item_tags row fires no trigger; the index stays right exactly when no tag text changes at the items involved |
| `SearchIndex.RelinkStalesIndex` | src/ah_there_it_is/db/search_schema.py:97-122 | a concrete relink that leaves the index stale |
| `DatabaseDoctor.FindCycles` | src/ah_there_it_is/database_doctor.py:193-208 | for every parent map, dangling parents included, the cycle set is exactly the nodes that reach themselves |
| `ParentMaps.WalkRepeatsExactlyIntoCycle` | src/ah_there_it_is/storage.py:875-887 | a plain walk repeats a node exactly when it can reach a cyclic one |
| `ParentMaps.ClosedTrailIsCycle` | src/ah_there_it_is/database_doctor.py:193-208 | when a walk meets its own trail, the trail from there on is a cycle and the part before is not |
| `ParentMaps.OpenTrailHasNoCycle` | src/ah_there_it_is/storage.py:577-591 | nodes whose walk ended at a root, outside the map or at settled nodes are on no cycle, which is what lets a memoised search skip them |
| `ParentMaps.DepthIsChainLength` | src/ah_there_it_is/storage.py:1780-1795 | the depth the loops compute is the number of parents up to the root |
| `PortableTrees.ValidateStreamHierarchy` | src/ah_there_it_is/storage.py:567-591 | the memoised check accepts exactly the parent-closed, acyclic maps, and otherwise reports the missing parent or the cycle the unmemoised check would report |
| `PortableTrees.MemoisedCycle` | src/ah_there_it_is/storage.py:577-591 | skipping settled nodes finds the same first cycle as walking every node to the end |
| `PortableTrees.UnmemoisedCycle` | src/ah_there_it_is/storage.py:874-887 | the plain search finds a genuine cycle, and none exactly when the map is acyclic |
| `PortableTrees.ValidateStreamTree` | src/ah_there_it_is/storage.py:532-591 | the whole streamed check accepts exactly the forests with distinct ids, sound records and distinct sibling names |
| `PortableTrees.ValidatePortableTree` | src/ah_there_it_is/storage.py:845-887 | the in-memory check accepts exactly the same trees, given distinct ids |
| `PortableTrees.PortableIds` | src/ah_there_it_is/storage.py:834-842 | the id table is built exactly when no id repeats |
| `PortableTrees.CheckNodes` | src/ah_there_it_is/storage.py:845-873 | the per-node loop passes exactly when every record is sound, siblings differ and parents are listed |
| `PortableTrees.FirstCycleIsGenuine` | src/ah_there_it_is/storage.py:580-588 | a reported cycle is a cycle: each entry is the parent of the one before, back to the first |
| `PortableTrees.WalksRepeatExactlyWhenCyclic` | src/ah_there_it_is/storage.py:577-591 | over a whole map no walk repeats exactly when no node is on a cycle |
| `PortableLevels.MemoDepth` | src/ah_there_it_is/storage.py:1780-1795 | one call of the iterative depth terminates on every accepted forest and only adds right depths |
| `PortableLevels.MemoDepths` | src/ah_there_it_is/storage.py:1797-1798 | all memoised depths are the true parent-chain lengths |
| `PortableLevels.ExecuteBatched` | src/ah_there_it_is/storage.py:1865-1884 | the batches together are the rows in order; each is full but the last, none is empty |
| `PortableLevels.WriteWorkspaceTree` | src/ah_there_it_is/storage.py:1767-1819 | level by level every node is written exactly once, its parent strictly earlier, in batches of at most the given size |
| `PortableLevels.LevelOrderPutsParentsFirst` | src/ah_there_it_is/storage.py:1799-1819 | in level order a parent stands strictly before its children |
| `PortableLevels.EveryNodeOnce` | src/ah_there_it_is/storage.py:1799-1819 | with enough levels every record occurs exactly once |
| `PortableLevels.PortableTreeOrder` | src/ah_there_it_is/storage.py:1887-1900 | the cached recursive depth gives the order by true depth, then id |
| `PortableLevels.CachedDepths` | src/ah_there_it_is/storage.py:1891-1899 | the cache holds true depths only |
| `PortableLevels.PortableTreeLevels` | src/ah_there_it_is/storage.py:1903-1917 | the levels hold, each in ascending id order, exactly the nodes the streaming writer writes at that level |
| `PortableLevels.ClimbingDepth` | src/ah_there_it_is/storage.py:1906-1912 | counting parents naively gives the same depth |
| `LocationPaths.CurrentLocationPaths` | src/ah_there_it_is/services/activity.py:282-310 | for every stored map, cyclic or dangling: raises exactly when a requested chain enters a cycle, and otherwise gives the root path exactly for the requests whose chain ends at a root |
| `LocationPaths.FetchAncestors` | src/ah_there_it_is/services/activity.py:285-296 | the frontier fetch terminates and records every stored ancestor of the requests |
| `LocationPaths.FetchRound` | src/ah_there_it_is/services/activity.py:287-296 | one round, its rows in any order, keeps every recorded parent recorded or requested and makes progress |
| `LocationPaths.RoundMakesProgress` | src/ah_there_it_is/services/activity.py:287-296 | each round records a new node or shrinks what the frontier can still teach: the measure that does decrease |
| `LocationPaths.RoundMayOnlyRefetch` | src/ah_there_it_is/services/activity.py:292-296 | a concrete round that can only refetch, so the count of unrecorded nodes alone is no measure |
| `LocationPaths.WalkPath` | src/ah_there_it_is/services/activity.py:298-309 | one walk over the records is the plain walk, and its text is the root path |
| `Utf8.DecodeInPieces` | src/ah_there_it_is/portable_stream.py:101-113 | incremental decoding with carried-over bytes equals decoding at once |
| `Utf8.DecodeEncoded` | src/ah_there_it_is/portable_stream.py:71-113 | decoding an encoded text gives the text |
| `Utf8.EncodeDecoded` | src/ah_there_it_is/portable_stream.py:71-113 | each text has exactly one well-formed encoding |
| `ChunkedText.Reader.Fill` | src/ah_there_it_is/portable_stream.py:95-113 | one read, when nothing is unread: new characters, or the end, or exactly a break in which the chunk completed no character; it fails exactly where the bytes stop being UTF-8 |
| `ChunkedText.Reader.Peek` | src/ah_there_it_is/portable_stream.py:83-86 | for every chunk size: the next character, or "" exactly at the end of the file or at a break, after which the file goes on |
| `ChunkedText.Reader.Take` | src/ah_there_it_is/portable_stream.py:88-93 | a taken character is the next one delivered, and the offset counts the characters of the file while no break was met |
| `ChunkedText.ReadAll` | src/ah_there_it_is/portable_stream.py:71-113 | for every chunk size the characters up to the first "" of a valid file are its decoding exactly when every chunk completes a character, which chunks of four bytes and more always do |
| `ChunkedText.DeliveredInFull` | src/ah_there_it_is/portable_stream.py:83-113 | a reader of any chunk size reaches the end exactly for valid UTF-8 of which every chunk completes a character; otherwise it stops short of a character of several bytes |
| `ChunkedText.LongBreaksNeedSmallChunks` | src/ah_there_it_is/portable_stream.py:83-86 | with chunks of three bytes and more at most one "" in a row is answered in the middle of a file |
| `ChunkedText.SmallChunksMayDeliverNothing` | src/ah_there_it_is/portable_stream.py:73-86 | for chunks of one, two and three bytes: a valid file of which nothing is delivered |
| `PortableParser.Workspace.Append` | src/ah_there_it_is/portable_stream.py:42-53 | a record goes to the end of its section file, counts equal file lengths, and the answer is its index; a record with a lone surrogate makes the write fail, and nothing else does |
| `PortableParser.Parser.SkipWhitespace` | src/ah_there_it_is/portable_stream.py:243-245 | for every chunk size: consumes exactly the leading white space, and one "" when it reaches a break |
| `PortableParser.Parser.ParseString` | src/ah_there_it_is/portable_stream.py:208-229 | consumes exactly the characters up to the first unescaped quote and yields what they load as |
| `PortableParser.Parser.ParseScalar` | src/ah_there_it_is/portable_stream.py:231-241 | consumes exactly the characters up to a delimiter |
| `PortableParser.Parser.ParseValue` | src/ah_there_it_is/portable_stream.py:133-145 | for every chunk size and at any path: succeeds exactly as the ordinary parser does on what is delivered when every record below can be written, leaves the stripped value and appends exactly those records |
| `PortableParser.Parser.ParseObject` | src/ah_there_it_is/portable_stream.py:147-171 | the same for objects, duplicate keys refused |
| `PortableParser.Parser.ParseArray` | src/ah_there_it_is/portable_stream.py:173-187 | the same for arrays kept in memory |
| `PortableParser.Parser.ParseSpooledArray` | src/ah_there_it_is/portable_stream.py:189-206 | a spooled array leaves its marker and appends its elements, in order, to its section |
| `PortableParser.Parser.Parse` | src/ah_there_it_is/portable_stream.py:126-131 | for every chunk size: a document is accepted exactly when what is delivered is one for the ordinary parser, its records can be written, and the file ends or answers "" often enough |
| `PortableParser.ReadPortableWorkspace` | src/ah_there_it_is/portable_stream.py:257-287 | the spooling parser refines the ordinary one: with chunks of three bytes and more exactly the valid UTF-8 files are accepted of which every chunk completes a character (always so from four bytes on), that hold a document and whose records can be written; for one and two bytes the exact condition is stated on what the reader delivers; each section file holds exactly the array at its path, and putting the arrays back restores the ordinary value |
| `PortableParser.AcceptedFiles` | src/ah_there_it_is/portable_stream.py:126-131 | what acceptance means for the file, by chunk size |
| `PortableParser.OneByteChunksEndEarly` | src/ah_there_it_is/portable_stream.py:126-131 | with chunks of one byte, "{}" and a character of three bytes is accepted although data trails the document |
| `PortableParser.TwoByteChunksEndEarly` | src/ah_there_it_is/portable_stream.py:126-131 | with chunks of two bytes, "{}" and three bytes of a character of four are accepted although that is not UTF-8 |
| `PortableSpools.SpooledIsTheArray` | src/ah_there_it_is/portable_stream.py:16-21 | what reaches a section file is exactly the one array under its path, so each section is spooled at most once |
| `PortableSpools.SpoolingLosesNothing` | src/ah_there_it_is/portable_stream.py:29-53 | structure with markers plus the four files determine the document |
| `PortableSpools.RestoreUndoesStrip` | src/ah_there_it_is/portable_stream.py:189-206 | replacing markers by the records undoes stripping |
| `PortableSpools.ValueIsOrdinary` | src/ah_there_it_is/portable_stream.py:147-171 | the ordinary parser returns unique keys and no markers |
| `PortablePrinter.PrintReads` | src/ah_there_it_is/storage.py:1362-1373 | any value printed compactly and followed by a delimiter reads back as itself |
| `PortablePrinter.SortKeysKeepsMapping` | src/ah_there_it_is/storage.py:1335-1337 | printing with sorted keys keeps every object the same mapping |
| `PortablePrinter.KeysAscend` | src/ah_there_it_is/storage.py:1335-1337 | the keys of an object are printed in the order of their code points |
| `PortableLayout.LaidReads` | src/ah_there_it_is/portable_stream.py:243-245 | a value written with any blanks, tabs, carriage returns and newlines around its brackets, commas, colons, keys and elements reads as the value |
| `PortableLayout.LayoutIsImmaterial` | src/ah_there_it_is/portable_stream.py:126-131 | so does a whole document, with white space before and behind it: it holds what the compact text holds |
| `PortableLayout.LaidOutFile` | src/ah_there_it_is/portable_stream.py:257-287 | every such file that is delivered in full is accepted exactly if its records can be written, and has the document, hence the structure and spools, of the compact one |
| `PortableLayout.OnlyBlanksAreSkipped` | src/ah_there_it_is/portable_stream.py:243-245 | a document that begins with any other character is refused, unless a value begins with it |
| `PortableExport.WriteJsonArray` | src/ah_there_it_is/storage.py:1362-1373 | the loop writes exactly the printed array and returns the row count |
| `PortableExport.WritePortableStream` | src/ah_there_it_is/storage.py:1330-1359 | the hand-framed text is exactly the printed document and a newline; the counts are the row counts |
| `PortableExport.FrameSpellsDocument` | src/ah_there_it_is/storage.py:1338-1358 | the frame written piece by piece spells the document |
| `PortableExport.PrintedDocumentParses` | src/ah_there_it_is/storage.py:1330-1373 | the printed text holds exactly the document for the ordinary parser |
| `PortableExport.DocumentIsMarked` | src/ah_there_it_is/portable_stream.py:16-21 | stripping the document leaves markers in exactly the four places |
| `PortableExport.ExportThenRead` | src/ah_there_it_is/storage.py:1330-1373 | export, encode, read in chunks of any size: accepted exactly when every chunk completes a character, as from four bytes on; then markers in the four places and spools equal to the printed rows |
| `PortableExport.LoneSurrogateIsRefused` | src/ah_there_it_is/portable_stream.py:42-53 | an item with a lone surrogate, named by an escape: a document for the ordinary parser, refused by the spooling one |
| `TagIndex.WorkspaceTagIndex` | src/ah_there_it_is/storage.py:1822-1839 | one pass over the items in any order gives the ids of sorting them and taking first occurrences, and the spelling met first in document order |
| `TagIndex.SortedPlacesAreFirstOccurrences` | src/ah_there_it_is/storage.py:1580-1588 | sorting tags by first place equals taking first occurrences over sorted items |
| `TagIndex.NamesAgree` | src/ah_there_it_is/storage.py:676-684 | with one spelling per tag, as validation demands, the pass and its twin keep the same names |
| `TagIndex.NamesMayDiffer` | src/ah_there_it_is/storage.py:1829-1831 | without that demand the names may differ: a concrete document |
| `TagOrderStability.TagOrderIsStable` | src/ah_there_it_is/storage.py:1580-1588 | listing every item's tags in tag order leaves the tag order as it is |
| `TagOrderStability.AddKept` | src/ah_there_it_is/storage.py:1581-1584 | an item's tags add the same names when taken in the order of the whole list |
| `PortableRoundTrip.ImportInventory` | src/ah_there_it_is/storage.py:1628-1723 | the imported tables: rows by id, alias rows in document order, tags numbered by first occurrence, links by those numbers |
| `PortableRoundTrip.StreamItems` | src/ah_there_it_is/storage.py:1388-1430 | keyset pages of 250 together are every item exactly once, in id order |
| `PortableRoundTrip.FetchPage` | src/ah_there_it_is/storage.py:1391-1404 | one query: at most 250 of the next rows, and none exactly when none is left |
| `PortableRoundTrip.ExportInventory` | src/ah_there_it_is/storage.py:1330-1359 | the exported document, from tables in id order |
| `PortableRoundTrip.ImportThenExport` | src/ah_there_it_is/storage.py:1628-1764 | import then export keeps trees, events and items in id order, each item's row, aliases in order and set of tags |
| `PortableRoundTrip.NothingIsLost` | src/ah_there_it_is/storage.py:1628-1764 | an accepted document, imported and exported, has the same trees, events and items, all in id order, each item with its row, its aliases in order and its set of tags |
| `PortableRoundTrip.AcceptedMeans` | src/ah_there_it_is/storage.py:594-686 | accepted are the documents whose items have distinct positive ids and one spelling for each tag |
| `PortableRoundTrip.ExportIsFixedPoint` | src/ah_there_it_is/storage.py:1822-1839 | tag numbers settle after one round: a second import and export changes nothing |
| `PortableRoundTrip.AliasesReturn` | src/ah_there_it_is/storage.py:1410-1415 | every item gets its own aliases back, in order |
| `PortableRoundTrip.TagOrderReturns` | src/ah_there_it_is/storage.py:1822-1839 | the exported document is numbered as the original was |
| `CrossSchemaRollback.RollbackCrossSchema` | deploy/cross_schema_rollback.py:127-183 | for every pattern of failures and interruptions, every competitor at free active paths and every sidecar a validation leaves: in every state the upgraded inode is reachable and a competitor's active file stays; success publishes the candidate without a sidecar of ours; a failure whose handler finishes restores the upgraded inode, and its sidecars' inodes unless a stray file holds their paths; unless a fault comes first, the run fails without moving anything exactly if a competitor takes a free active path before the comparison of states, and otherwise the upgraded file is moved aside; every other ending has its fault, and without faults and competitors the run returns; with no competitor and one fault, each active path is as before exactly unless that fault's moment spoils it |
| `CrossSchemaRollback.SafeExactlyWithoutLeavings` | deploy/cross_schema_rollback.py:153-178 | a single fault, whenever it comes, leaves every active path as it was exactly if validating the candidate leaves no sidecar and validating the upgraded database leaves none where none was |
| `CrossSchemaRollback.ServiceCheckRaises` | deploy/cross_schema_rollback.py:156-178 | the run in which only the service check after the validation raises: each path is as before exactly if neither validation leaves a new file there |
| `CrossSchemaRollback.ValidatorsFilesStay` | deploy/cross_schema_rollback.py:46-53 | a candidate in WAL mode and sidecars beside the upgraded database: after that single failure the files of the validation stand at both sidecar paths and neither sidecar is linked back |
| `CrossSchemaRollback.StageAndCompare` | deploy/cross_schema_rollback.py:134-144 | staging touches staged names only; without a fault the comparison of states fails exactly when a competitor took a free active path meanwhile |
| `CrossSchemaRollback.MakeReady` | deploy/cross_schema_rollback.py:134-146 | up to the quarantine nothing active is moved, and without a fault the move begins exactly when no such path was taken |
| `CrossSchemaRollback.WishedIsWanted` | deploy/cross_schema_rollback.py:141-144 | the paths taken by competitors meanwhile are exactly the free ones they wanted |
| `CrossSchemaRollback.Swap` | deploy/cross_schema_rollback.py:134-164 | the body leaves the handler an exact account of whose file is active, where the sidecars are, and at which of their paths a validation left a file |
| `CrossSchemaRollback.Confirm` | deploy/cross_schema_rollback.py:154-158 | the sweep removes what the validation left; stopped in between, the moment tells exactly what is still there |
| `CrossSchemaRollback.Recover` | deploy/cross_schema_rollback.py:165-179 | the handler puts the upgraded inode back and links each moved sidecar back exactly where its path is free; its own validation may leave a file only where there was no sidecar |
| `CrossSchemaRollback.MoveAside` | deploy/cross_schema_rollback.py:147-149 | a file moved to the quarantine keeps its inode and frees its path |
| `CrossSchemaRollback.MoveAll` | deploy/cross_schema_rollback.py:147-151 | whatever fails in between, each sidecar is at its place or in the quarantine; finished, all are in the quarantine |
| `CrossSchemaRollback.LinkSidecars` | deploy/cross_schema_rollback.py:171-175 | each moved sidecar is linked back by its own inode exactly where its path is free; what stands in the way stays |
| `CrossSchemaRollback.RemoveEmptySidecars` | deploy/cross_schema_rollback.py:46-53 | only the two sidecar paths change, and once finished no sidecar of ours stands there |
| `CrossSchemaRollback.CleanUp` | deploy/cross_schema_rollback.py:180-183 | the cleanup touches staged names only |
| `CrossSchemaRollback.Disk.Become` | deploy/cross_schema_rollback.py:127-183 | the only way a state changes: the next one reaches the upgraded database and keeps a competitor's file |
| `RestoreBackup.RestoreBackup` | src/ah_there_it_is/storage.py:1109-1182 | for every pattern of failures and interruptions: in every state the target says the original, the validated candidate or what the safety backup says; success means the candidate and that every step was done in its order, each file synced before it is published and its directory after; a failure before publication means the original, one with a finished rollback what the backup says; without frames at the log path of the safety backup that is the original; every ending but a return has its fault, or an unsound candidate or an obstacle to the safety backup from the start, and without these the restore returns |
| `RestoreBackup.CreateSafety` | src/ah_there_it_is/storage.py:1043-1106 | the safety backup is published without replacing anything and validated before the target is touched; what it then says is the copy read with the log that stood at its path |
| `RestoreBackup.BackupSays` | src/ah_there_it_is/storage.py:2170-2182 | the published backup says the original exactly when the log left at its path leaves the original as it is, as it does without frames |
| `RestoreBackup.SafeExactlyWithoutFrames` | src/ah_there_it_is/storage.py:1057-1076 | every original is safe exactly when no frames stand at the path of the safety backup's log |
| `RestoreBackup.OriginalOrCandidate` | src/ah_there_it_is/storage.py:1109-1182 | with a harmless log the target never says anything but the original or the validated candidate, and the backup keeps the original |
| `RestoreBackup.LeftoverLogMisleads` | src/ah_there_it_is/storage.py:1057-1076 | a run without failures: a log left over at the safety path makes the validated backup say something else |
| `RestoreBackup.Prepare` | src/ah_there_it_is/storage.py:1135-1150 | staging and emptying the log leave the target's content as it was |
| `RestoreBackup.Replace` | src/ah_there_it_is/storage.py:1136-1182 | each way out of the body keeps its promise about the target and is accounted for: only an interruption stops it without a rollback, and a rollback fails only by a second fault |
| `RestoreBackup.RollbackRestore` | src/ah_there_it_is/storage.py:1185-1199 | the rollback with its cleanup fails by a fault only; finished, the target says what the safety backup says |
| `RestoreBackup.RollbackBody` | src/ah_there_it_is/storage.py:1185-1199 | the rollback publishes what the safety backup says |
| `RestoreBackup.Disk.Snapshot` | src/ah_there_it_is/storage.py:2060-2073 | a finished snapshot has the source's content and no log |
| `RestoreBackup.Disk.Checkpoint` | src/ah_there_it_is/storage.py:2076-2087 | a checkpoint, finished or not, leaves the content as it was; finished it leaves no frames |
| `RestoreBackup.Disk.ReplaceTarget` | src/ah_there_it_is/storage.py:1151-1154 | replacing the main file is safe because no log with frames stands beside it |
| `RestoreBackup.Disk.Validate` | src/ah_there_it_is/storage.py:963-1021 | validation passes only readable, sound content, and fails on such content by a fault only |
| `BatchCheckpoint.ValidateBatchCheckpoint` | tools/agent/lifecycle_checkpoints.py:1288-1468 | the validator's loops decide exactly the declared consistency of a checkpoint |
| `BatchCheckpoint.CheckHistory` | tools/agent/lifecycle_checkpoints.py:1383-1430 | replaying the history rebuilds the completed tasks and the highest event |
| `BatchCheckpoint.CheckTasks` | tools/agent/lifecycle_checkpoints.py:1353-1382 | recorded tasks are a prefix of the manifest order with sound facts |
| `BatchCheckpoint.CheckEvidence` | tools/agent/lifecycle_checkpoints.py:1431-1466 | the recorded commits are commits, review and final-local descend from the seed, and each piece of evidence stands on the one before |
| `BatchCheckpoint.CheckpointFile.Write` | tools/agent/lifecycle_checkpoints.py:1472-1652 | a call is accepted exactly when the writer's payload passes the validator, and a refused call leaves the file as it was; which calls those are is said by `BatchRuns.AcceptedExactly` |
| `BatchCheckpoint.RunsAreFaithful` | tools/agent/lifecycle_checkpoints.py:1472-1652 | in every run the evidence a checkpoint vouches for is exactly what the history shows since its last task fact |
| `BatchCheckpoint.MergedMeans` | tools/agent/lifecycle_checkpoints.py:1472-1652 | in every run a recorded merge means the history ends, after its last task fact, with exactly review, final-local, PR, CI and merge; final-local, PR and CI heads are one; all manifest tasks are recorded in order |
| `BatchCheckpoint.TaskClearsEvidence` | tools/agent/lifecycle_checkpoints.py:1571-1595 | no review, PR or CI evidence from before a task fact survives it |
| `BatchCheckpoint.GateIsExact` | tools/agent/lifecycle_checkpoints.py:1649-1650 | the validator run on the writer's payload accepts exactly when a task has an identity and review and final-local heads descend from the seed |
| `BatchCheckpoint.EvidenceFollows` | tools/agent/lifecycle_checkpoints.py:1548-1638 | each event changes the evidence fields as it changes the tail of the history |
| `BatchRuns.AcceptedExactly` | tools/agent/lifecycle_checkpoints.py:1472-1652 | after accepted calls the next one changes the file exactly if it fits them: the right head, branch and tree, the next task or a correction of the last, or the next evidence on the commit it must be on; said of the calls and git alone |
| `BatchRuns.LegalIsAccepted` | tools/agent/lifecycle_checkpoints.py:1472-1652 | a sequence of calls that fit, corrections between and evidence given anew included, is accepted call by call |
| `BatchRuns.LegalMergeIsRecorded` | tools/agent/lifecycle_checkpoints.py:1632-1638 | the merge at the end of such a sequence is recorded |
| `BatchRuns.HistoryIsCalls` | tools/agent/lifecycle_checkpoints.py:1639-1648 | the history of such a sequence is its calls, one fact each |
| `BatchRuns.CanFinish` | tools/agent/lifecycle_checkpoints.py:1472-1652 | every batch that has begun and is not merged can be brought to its merge from where it stands |
| `BatchRuns.BatchCanMerge` | tools/agent/lifecycle_checkpoints.py:1472-1652 | so every manifest with distinct tasks, a verified seed and commits on it has calls that end in its recorded merge |
| `PhaseCheckpoint.ValidateCheckpoint` | tools/agent/lifecycle_checkpoints.py:977-1096 | the validator's loops decide exactly the declared validity |
| `PhaseCheckpoint.CheckHistory` | tools/agent/lifecycle_checkpoints.py:1007-1049 | the history loop decides sequential iterations, regressions only by correction, merged final, and the highest phase |
| `PhaseCheckpoint.CheckCorrections` | tools/agent/lifecycle_checkpoints.py:1071-1096 | the correction history is exactly the steps to new iterations |
| `PhaseCheckpoint.CheckPublished` | tools/agent/lifecycle_checkpoints.py:1053-1070 | the publication data fit the phase: number and heads well formed, a PR on the head from its opening on, a merge commit exactly when merged |
| `PhaseCheckpoint.CheckpointFile.Write` | tools/agent/lifecycle_checkpoints.py:1099-1232 | whatever the file held, exactly the acceptable requests succeed and leave a checkpoint that validates, though the writer never validates it; its history is the old one with one event, and a number, head or iteration that is not given is the one before |
| `PhaseCheckpoint.CheckpointFile.Advance` | tools/agent/lifecycle_checkpoints.py:1126-1171 | exactly the next steps are allowed, and they keep history, corrections and highest phase consistent |
| `PhaseCheckpoint.StepsExactly` | tools/agent/lifecycle_checkpoints.py:1122-1197 | the acceptable next requests: within an iteration a later phase in the listed order, or the same again on the same head or while the implementation is made ready; in the next iteration any phase unless merged; and what is published fits the phase |
| `PhaseCheckpoint.RankIsPlace` | tools/agent/lifecycle_checkpoints.py:17-28 | ranks are the places in the listed order of phases |
| `PhaseCheckpoint.ValidHistories` | tools/agent/lifecycle_checkpoints.py:1011-1041 | in every valid history a phase falls only when the iteration rises, merged is final, and regressions number at most the corrections |
| `CanonicalVerifier.ValidateState` | tools/agent/canonical_verifier.py:259-379 | the validator's loop decides exactly the declared validity of run.json |
| `CanonicalVerifier.Supervisor.RunNext` | tools/agent/canonical_verifier.py:1196-1247 | one turn: git is asked, the attempt written, the recipe run, its result written, git asked again; the turn goes on only after a success between two answers with the recorded HEAD, and a turn in which no write fails ends as the answers and the recipe say, be it in a kill |
| `CanonicalVerifier.Supervisor.RunChecks` | tools/agent/canonical_verifier.py:1192-1263 | the loop, its exits and its exception handler keep recorded checks a prefix of the recipes with only the last possibly unsuccessful; a run in which no write fails ends with a summary, passed exactly when no turn ends it and otherwise with the status of the first that does, or open where a recipe was killed; a single exception anywhere closes it as an internal error; after a kill nothing is done |
| `CanonicalVerifier.Supervisor.CatchTurn` | tools/agent/canonical_verifier.py:1192-1263 | an exception in a turn is caught and closes the run as an internal error |
| `CanonicalVerifier.AllSucceedPasses` | tools/agent/canonical_verifier.py:1192-1249 | on one HEAD, with every recipe succeeding, the run passes |
| `CanonicalVerifier.KilledDies` | tools/agent/canonical_verifier.py:1192-1249 | if a recipe is killed after that, the run dies there |
| `CanonicalVerifier.Supervisor.CloseStart` | tools/agent/canonical_verifier.py:652-666 | a start that fails after its state was written is closed as an internal error |
| `CanonicalVerifier.Supervisor.Launch` | tools/agent/canonical_verifier.py:637-651 | the lock owner is written and the worker started; an exception there closes the start |
| `CanonicalVerifier.Supervisor.HeadHolds` | tools/agent/canonical_verifier.py:1199-1206 | git's answer is compared with the recorded HEAD, and a run on another HEAD is closed |
| `CanonicalVerifier.Supervisor.HeadConfirms` | tools/agent/canonical_verifier.py:1240-1247 | after a recorded success git is asked again, which confirms it |
| `CanonicalVerifier.Supervisor.Record` | tools/agent/canonical_verifier.py:1230-1247 | the result is written before anything else; an unsuccessful one closes the run, a successful one is confirmed |
| `CanonicalVerifier.Supervisor.Execute` | tools/agent/canonical_verifier.py:1219-1227 | a recipe is started only next in order, with no failure recorded, every recorded success confirmed, an attempt number never used before, and git having just answered with the recorded HEAD |
| `CanonicalVerifier.Supervisor.WriteSummary` | tools/agent/canonical_verifier.py:1152-1189 | summary, then state: cut between the two the files still agree; finished, both are written |
| `CanonicalVerifier.Supervisor.WriteState` | tools/agent/canonical_verifier.py:254-256 | every state written keeps the invariant and any summary already there; it lands exactly unless the write is killed or raises before the file is replaced |
| `CanonicalVerifier.Supervisor.Start` | tools/agent/canonical_verifier.py:589-666 | starting on a fresh directory, cut short or failing anywhere; without failing writes it ends as its turns say, and a single exception after the first write closes it as an internal error |
| `CanonicalVerifier.Supervisor.Resume` | tools/agent/canonical_verifier.py:677-746 | a resume goes on exactly without a summary, without live processes, while starting or running, with all recorded checks successful and git answering with the recorded HEAD, before and under the lock; so from all files a run leaves that is cut short between or during recipes; a refused one changes nothing |
| `CanonicalVerifier.ContinuedKeeps` | tools/agent/canonical_verifier.py:486-494 | the HEAD answer that lets a resume go on confirms the last recorded success |
| `CanonicalVerifier.Supervisor.NothingBlocks` | tools/agent/canonical_verifier.py:480-507 | resuming is allowed exactly on the recorded HEAD with all recorded checks successful while the status is starting or running |
| `CanonicalVerifier.Supervisor.ReadSummary` | tools/agent/canonical_verifier.py:441-477 | the reader accepts every summary a run leaves behind |
| `CanonicalVerifier.RunWithResumes` | tools/agent/canonical_verifier.py:589-746 | start, then any number of resumes, each killed anywhere, keep the invariant |
| `CanonicalVerifier.ResumeCut` | tools/agent/canonical_verifier.py:677-746 | however a run is cut short, a resume on the recorded HEAD in which no write fails and every recipe succeeds ends with a passed summary |
| `CanonicalVerifier.StartKilledResumed` | tools/agent/canonical_verifier.py:589-746 | a start, a kill during any recipe and an undisturbed resume end with a passed summary |
| `CanonicalVerifier.PassedMeans` | tools/agent/canonical_verifier.py:1248-1249 | a passed summary means every recipe has one recorded, successful check; its run was the recipe's last, did succeed, began when git had just answered with the recorded HEAD, and was followed by such an answer before any later recipe, in the same turn or at the resume that continued the run |
| `WriteResolution.ResolveWithEvidence` | src/ah_there_it_is/agent/write_resolution.py:23-97 | resolved exactly on a unique match in the whole database, ambiguous exactly on several, otherwise none; the evidence says by what it matched |
| `WriteResolution.MatchingNodes` | src/ah_there_it_is/agent/write_resolution.py:58-86 | exactly the nodes a phrase leads to, from the root or from outside, or those whose name or, for a slashed query, whose whole spelled path it is |
| `WriteResolution.PathMatches` | src/ah_there_it_is/agent/write_resolution.py:64-86 | the tests on suffixes and joined parts decide whether a path leads there and whether the parts spell it |
| `WriteResolution.PathOf` | src/ah_there_it_is/agent/write_resolution.py:99-114 | the path of a node, empty for chains that dangle or cycle |
| `AgentCapabilities.Dispatcher.BeginRound` | src/ah_there_it_is/agent/tools.py:155-170 | the calls of a round see exactly what was known when it began |
| `AgentCapabilities.Dispatcher.DoSearch` | src/ah_there_it_is/agent/tools.py:593-619 | a search resolves exactly the returned candidate that is the unique match, records its key, and every candidate as seen |
| `AgentCapabilities.Dispatcher.StillResolves` | src/ah_there_it_is/agent/tools.py:1109-1116 | exactly whether some frozen query still names the entity and it alone |
| `AgentCapabilities.Dispatcher.CheckReferences` | src/ah_there_it_is/agent/tools.py:1092-1116 | passes exactly when every reference was resolved before the round and is backed on the database as it is now |
| `AgentCapabilities.Dispatcher.References` | src/ah_there_it_is/agent/tools.py:846-968 | each tool lists exactly the rows its operation is given |
| `AgentCapabilities.Dispatcher.ValidatedWrite` | src/ah_there_it_is/agent/tools.py:1085-1117 | the operation runs exactly when every row it is given was resolved before the round and is created earlier in the run or again the unique match of one of its queries |
| `AgentCapabilities.Dispatcher.DoMutate` | src/ah_there_it_is/agent/tools.py:873-975 | a tool on an item succeeds exactly when the rows its own operation is given are allowed and the operation succeeds; it creates and resolves nothing |
| `AgentCapabilities.Dispatcher.DoCreate` | src/ah_there_it_is/agent/tools.py:728-738 | creations need a prior search and allowed references, and add exactly the created row to what is created and resolved |
| `AgentCapabilities.Dispatcher.DoCreateLocation` | src/ah_there_it_is/agent/tools.py:749-806 | a path is created exactly with a prior search, an allowed parent and some new node; its new nodes become created and resolved, its reused ones resolved |
| `AgentCapabilities.Dispatcher.RememberPath` | src/ah_there_it_is/agent/tools.py:778-787 | exactly the new nodes become created, exactly all nodes resolved, the reused ones backed by their path text |
| `AgentCapabilities.Dispatcher.Execute` | src/ah_there_it_is/agent/tools.py:252-303 | every call is answered, and leaves the database and what is known, exactly as the calls before it, the frozen knowledge and the operation say; it only adds knowledge, keeps resolved ids seen and created or backed by a query, and changes the database only as a successful mutation |
| `AgentCapabilities.SearchAllowsCreation` | src/ah_there_it_is/agent/tools.py:728-738 | after a search under the same normalized name, in an earlier round, a creation is permitted |
| `AgentCapabilities.MatchAllowsChange` | src/ah_there_it_is/agent/tools.py:1085-1117 | after a search whose unique match was returned, in an earlier round, a change of that row is permitted while it is still the unique match |
| `AgentRunner.RunRound` | src/ah_there_it_is/agent/runner.py:175-214 | every write and every answer of a round relies on what was known when the round began, on the database as the calls before left it; a round that fails stopped at the first result that is not tolerated |
| `AgentRunner.OneMoreRound` | src/ah_there_it_is/agent/runner.py:175-214 | adding a round keeps every write in its own round |
| `AgentRunner.Run` | src/ah_there_it_is/agent/runner.py:75-241 | the responses and the results of their calls determine how the run ends: with final words, with the model's failure, at the first result that is not tolerated, or when no round is left; a completed run is labelled committed and leaves what its successful changes made of the database, one after another; a failed one leaves the database as it was and is labelled rolled back; every write was justified and relied on what was known when its own round began |
| `AgentRunner.Settle` | src/ah_there_it_is/agent/runner.py:137-140 | relabelling touches provisional results only |
| `ResponsesSse.ParseResponsesSse` | src/ah_there_it_is/agent/chatgpt_codex.py:390-558 | while the total stays within the limit the outcome, reply or error, is that of the concatenated bytes, however cut, and `SseStreams.StreamIsAnswered` says what that is; beyond the limit the outcome is an error |
| `ResponsesSse.ConsumedInPieces` | src/ah_there_it_is/agent/chatgpt_codex.py:502-517 | consuming bytes in two pieces is consuming them at once, splits inside a line or a CRLF included |
| `ResponsesSse.Parser.ProcessLine` | src/ah_there_it_is/agent/chatgpt_codex.py:481-502 | one line: field, value, comment or dispatch |
| `ResponsesSse.Parser.Dispatch` | src/ah_there_it_is/agent/chatgpt_codex.py:405-479 | one event changes exactly the text, the call or the completion it speaks of |
| `ResponsesSse.Parser.Drain` | src/ah_there_it_is/agent/chatgpt_codex.py:509-515 | the inner loop consumes exactly the complete lines |
| `ResponsesSse.UnfinishedEventIsDispatched` | src/ah_there_it_is/agent/chatgpt_codex.py:518-521 | an event without its closing blank line is dispatched: adding the blank line changes nothing |
| `ResponsesSse.ArgumentsAre` | src/ah_there_it_is/agent/chatgpt_codex.py:441-472 | a call's arguments are those of the last event that gave them, then the deltas after it |
| `ResponsesSse.CallsFollowEvents` | src/ah_there_it_is/agent/chatgpt_codex.py:441-472 | the calls assembled by complete lines are determined by the dispatched events |
| `ResponsesSse.EndCallsFollowEvents` | src/ah_there_it_is/agent/chatgpt_codex.py:518-521 | the calls a stream ends with are those of all its events, the unfinished last one included |
| `ResponsesSse.ReplyCallsAre` | src/ah_there_it_is/agent/chatgpt_codex.py:548-550 | in every accepted reply that lists no calls itself there is one call for each id, and its arguments are the added text plus deltas, or what a later event put in their place |
| `ResponsesSse.ListedCallsWin` | src/ah_there_it_is/agent/chatgpt_codex.py:526-548 | calls listed by the completed response take the place of the assembled ones |
| `ResponsesSse.ReadItems` | src/ah_there_it_is/agent/chatgpt_codex.py:526-545 | the listed texts and calls are collected in order; an entry that is no object, a message without a list of contents or an incomplete call is an error |
| `ResponsesSse.DecodeCalls` | src/ah_there_it_is/agent/chatgpt_codex.py:548-550 | the assembled calls are taken in order unless one is incomplete |
| `SseStreams.StreamIsAnswered` | src/ah_there_it_is/agent/chatgpt_codex.py:390-558 | any stream of blocks, written with either line end, comments, other fields, several data lines and with or without the space behind a colon, is answered as its events say: their first fault; an error without a completion; otherwise the listed texts and calls of the last completed response, each replaced by what arrived piece by piece if it lists none, and an error exactly if an entry or a call is not complete |
| `SseStreams.UnfinishedStreamIsAnswered` | src/ah_there_it_is/agent/chatgpt_codex.py:518-521 | so is a stream that ends within its last event |
| `SseStreams.BlocksRead` | src/ah_there_it_is/agent/chatgpt_codex.py:405-521 | reading the bytes of the blocks is taking their events one after another |
| `SseStreams.LineReads` | src/ah_there_it_is/agent/chatgpt_codex.py:481-502 | a line is told by its field name and the text behind its colon; comments and the kind of line end do not matter |
| `SseStreams.CallsAre` | src/ah_there_it_is/agent/chatgpt_codex.py:425-472 | one call for each id in the order of first events: as it was last added or done, with what deltas and final arguments made of it since |
| `SseStreams.JoinIs` | src/ah_there_it_is/agent/chatgpt_codex.py:410 | data lines are joined by newlines |
| `Campaign.SlotIdInjective` | src/ah_there_it_is/benchmark_campaign.py:355-356 | distinct plan entries have distinct slot ids, whatever the case ids contain |
| `Campaign.AttemptPlan` | src/ah_there_it_is/benchmark_campaign.py:341-352 | the two loops build the plan |
| `Campaign.PlanDistinct` | src/ah_there_it_is/benchmark_campaign.py:341-352 | no entry is planned twice |
| `Campaign.PlanMembers` | src/ah_there_it_is/benchmark_campaign.py:341-352 | the plan is exactly the declared case and repetition pairs |
| `Campaign.CampaignFile.Run` | src/ah_there_it_is/benchmark_campaign.py:430-508 | through any kills and resumes the stored attempts are a prefix of the plan; a run finishes exactly when nothing kills it, and then every slot is stored once and the file marked completed; each executed slot was not stored before, is executed once by its own executor, and stored with what that answered; a kill loses the result of at most one |
| `Campaign.OnceEach` | src/ah_there_it_is/benchmark_campaign.py:452-463 | the slots behind the stored prefix are exactly those not stored, each once |
| `Campaign.AllStored` | src/ah_there_it_is/benchmark_campaign.py:498-505 | the completed mark says that every slot of the plan has a completed attempt |
| `Campaign.DeclaredAttempts` | src/ah_there_it_is/promotion_report.py:43-79 | the loops of the report declare exactly the slots the runner plans |
| `Campaign.EvidenceCompleteness` | src/ah_there_it_is/promotion_report.py:111-181 | on any stored attempts the report names exactly the missing, unexpected, incomplete, duplicate and invalid slots |
| `Campaign.CompletedCampaignPasses` | src/ah_there_it_is/promotion_report.py:111-181 | of a completed file nothing is missing, unexpected, incomplete or duplicate, and it is complete exactly when its evidence is valid |
| `Campaign.RunAndCheck` | src/ah_there_it_is/promotion_report.py:111-181 | a finished run, then checked, has no such finding |

## Left out

- Uniqueness of normalized names in the database, and updates of primary keys, which no trigger watches.
- The limits to 20 samples of the consistency and doctor reports; the doctor's ascending start order, since the cycle set does not depend on it.
- PortableParser.ReadPortableWorkspace: with chunks of one to three bytes it relies on numbers and literal names being ASCII, as sections 3 and 6 of RFC 8259 say; with larger chunks on nothing of the kind.
- Read errors of the input file, recursion limits, and the wording and offsets of parse errors.
- The line encoding of spool files (one `json.dumps` per line, loaded back later) is taken as the identity.
- Portable formats v1 and v2, whose validation accepts a state that is imported without its removal reason.
- Publication of an imported database, migrations, and the search check after an import.
- PortableRoundTrip.ImportInventory: the tree tables are given in id order; the level-by-level writing is proved in `PortableLevels`.
- Trees and events are streamed by one ordered query each; only the keyset paging of items is modelled.
- Contents of sidecar files, sizes and modification times in the cross-schema rollback; a comparison of them is a step that may fail.
- RestoreBackup.Disk.Validate: a read-only connection to a database in WAL mode may leave an empty log and a shared-memory file beside it; they change nothing of what the database says, and the step here creates no file.
- Competitors that rename over or delete existing files, and other writers of the target during a restore.
- Durability below the primitives: fsync, hashes, file modes, timestamps and their formats.
- Process groups, pids, locks, log files and time limits of the verification supervisor; a resume is told whether old processes live, and the parent and the worker never write at once.
- Identity fields of checkpoints are one opaque value; JSON typing of stored files is given by the datatypes.
- AgentCapabilities.Dispatcher.Execute: photo edits and undo rely on ids seen, not on the validated write, as in the source.
- Receipts, semantic evidence for the trace, the containment policy of locations, and which tools are offered in a round.
- AgentRunner.Run: conversation messages and the stored run record are not part of the database modelled here.
- Redaction of stream errors, and the final validation of the reply object.
- The text decoder of the stream parser is a parameter; it is applied to one line at a time.
- Delays between attempts, input hashes and the identity check of a stored campaign result.
- Telegram, web, command-line and provider code, morphology, metric aggregation and report rendering: plumbing or shallow claims.
