# Thoughts: the synchronisation core, in Dafny

This project models the core of *Thoughts*, a macOS note-taking application
that keeps its notes as Markdown files in a folder. It covers the following
parts:

- **`Details` record algebra** (`details.dfy`, module `FileDetails`). A file
  record is identified by its (owner, url) pair. `equivalent(to:)` is the
  change test and ignores the uuid. `applying(details:)` keeps the record's
  identity and takes only the new modification time. `setting(ownerURL:)`
  moves the record to another owner.
- **The directory listing** (`file_manager.dfy`, module `FileListing`).
  `details(for:owner:)` builds one record from looked-up resource values.
  `files(directoryURL:ownerURL:)` lists the root first, then every
  enumerated entry that has a content type and a modification date.
- **`DirectoryScanner`** (`directory_scanner.dfy`, module `Scanner`). This
  is a class that owns the `identifiers` table. At startup it reconciles a
  snapshot against a fresh walk and emits deletion, creation and update
  batches. It then turns each file-system event (create, remove, rename,
  modify) into callbacks and table edits. The callbacks are recorded in a
  `log` of batches.
- **The tag `Library`** (`library.dfy`, module `TagLibrary`). It keeps a
  per-file tag cache for Markdown files, driven by the scanner's batches,
  and after every batch it rebuilds a `Trie` of the union of all tags.
- **`Trie`** (`trie.dfy`, module `Tries`). This is a heap tree of nodes with
  child maps and end-of-word flags. It supports `insert`, `contains` and
  `words(prefix:)`.
- **`TimeZone(iso8601:)`** (`time_zone.dfy`, module `TimeZones`). It reads
  the `Z` designator and the `±hh`, `±hhmm` and `±hh:mm` offsets of
  ISO 8601:2004 sections 4.2.4 and 4.2.5.1. It also applies the local rule
  that `±` only stands before a zero offset. The end-anchored regular
  expression is written out as a scan from the end of the string.
- **`Document`** (`document.dfy`, module `Documents`). This covers tag
  splitting on whitespace runs, header framing, the date-only file name,
  and the `sync(to:)` decision: delete the file when the document is empty,
  otherwise write the header followed by the content.
- **The two flow layouts** (`layout_geometry.dfy`, `centered_flow_layout.dfy`
  and `tag_view_layout.dfy`). These cover the greedy line-breaker
  `rows(proposal:spacing:)`, `sizeThatFits`, and the placement loops of
  `CenteredFlowLayout` and `TagViewLayout`.
- **Shared types** (`wrappers.dfy`): `Option` and `Result`.

The code that changes state step by step is modelled imperatively, in
seven of the files:
- Four classes change their fields in their methods: `DirectoryScanner`
  (`directory_scanner.dfy`), `Library` (`library.dfy`), `Trie`
  (`trie.dfy`), and `FileStore` (`document.dfy`), the files that
  `sync(to:)` writes to.
- Methods with loops model the looping code: the listing
  (`file_manager.dfy`), the reconciliation (`directory_scanner.dfy`), the
  line-breakers (`centered_flow_layout.dfy`, `tag_view_layout.dfy`) and the
  placement loops (`layout_geometry.dfy`). Each is proved equal to a
  specification function.
- The lemmas are stated about those specification functions.

`Details`, `TimeZone` and the tag splitting are pure functions.

Outside things become parameters:
- The file system is a `FileSystem` value. It gives each path's existence,
  its resource values, and the entries of a directory in enumeration order.
- `UUID()` is a counter `nextUuid`, so fresh uuids are the counter's next
  values.
- The front-matter reader is a parameter of the `Library` methods. It
  returns `None` when the document cannot be read.
- In `Document`, the YAML encoder, the date formatter, the time zone and
  the outcome of each file operation are parameters of `Sync`.

In these places the code behaves in ways that are easy to miss; the model
follows the code:
- The listing does not fail on an entry whose content type or modification
  date is missing. It skips that entry (`continue`). It fails only when a
  lookup itself throws.
- The startup walk is `try!`: a failing walk stops the program instead of
  being reported. The model therefore requires a walk that succeeds.
- Startup reconciliation is not always idempotent. A tracked file whose
  content type changed is updated again on every start: `applying(details:)`
  keeps the old type, so the installed record never becomes equivalent to
  the walked one.
- When a tracked directory is renamed onto an existing path, the scanner
  records one update and leaves the entries below it in the table.
- The line-breaker resets `rowWidth` to 0, not to `-spacing`, on each break.
  As a result, every row after the first counts one spacing more than it
  shows.
- The first row is empty when the first subview alone is wider than the
  proposal.
- With no proposed width, `rows` is `[[]]`, so `CenteredFlowLayout` asks
  for a zero size.

## Model

| member | source | states |
|---|---|---|
| FileDetails.Identifier.Parent | Thoughts/Utilities/Details.swift:33-35 | the parent keeps the owner and has a URL no longer than the child's |
| FileDetails.DeletingAppendedComponent | Thoughts/Utilities/Details.swift:34 | deleting the last component of `dir/name` gives `dir` back, and `dir/` is a prefix of `dir/name` |
| FileDetails.LastSlash | Thoughts/Utilities/Details.swift:59 | the index found is a `/` and no `/` follows it (or -1 when there is none) |
| FileDetails.IdentifierIsOwnerAndUrl | Thoughts/Utilities/Details.swift:49-56 | two records have the same identifier iff they have the same owner and url |
| FileDetails.Details.ParentURL | Thoughts/Utilities/Details.swift:58-60 | the parent URL is no longer than the URL, and it is empty iff the URL has no `/` |
| FileDetails.ParentOfIdentifier | Thoughts/Utilities/Details.swift:58-60 | `identifier.parent` is the owner with `parentURL` |
| FileDetails.Details.Setting | Thoughts/Utilities/Details.swift:62-68 | the result's identifier is the new owner with the same url |
| FileDetails.SettingChangesOnlyOwner | Thoughts/Utilities/Details.swift:62-68 | only the owner changes; the identifier changes iff the owner does; setting the same owner is the identity |
| FileDetails.EquivalentIsEqualityUpToUuid | Thoughts/Utilities/Details.swift:70-77 | equivalent iff equal once the uuid is ignored; a different modification time is never equivalent |
| FileDetails.EquivalenceRelation | Thoughts/Utilities/Details.swift:70-77 | `equivalent` is reflexive, symmetric and transitive |
| FileDetails.EquivalentSameIdentifier | Thoughts/Utilities/Details.swift:70-77 | equivalent records share an identifier |
| FileDetails.Details.Applying | Thoughts/Utilities/Details.swift:79-85 | the result keeps the identifier and the uuid |
| FileDetails.ApplyingTakesOnlyModificationDate | Thoughts/Utilities/Details.swift:79-85 | only the modification time is taken from the argument; `x.applying(x) == x`; applying twice is applying once |
| FileDetails.ApplyingEquivalentIffSameType | Thoughts/Utilities/Details.swift:79-85 | for the same identifier, the result is equivalent to the argument iff the content types agree |
| FileListing.DetailsFor | Thoughts/Extensions/FileManager.swift:33-51 | succeeds iff the directory flag, the content type and the date are all found; the record has the given owner, url, uuid and date, and a directory gets `.directory` |
| FileListing.Kept | Thoughts/Extensions/FileManager.swift:67-73 | every kept entry has a content type and a date, and no more entries are kept than enumerated |
| FileListing.KeptMembers | Thoughts/Extensions/FileManager.swift:67-79 | an entry is kept iff it was enumerated and has both values |
| FileListing.KeptIsSubsequence | Thoughts/Extensions/FileManager.swift:67-79 | kept entries keep their enumeration order |
| FileListing.Listed | Thoughts/Extensions/FileManager.swift:66-78 | the loop's records start with the root's own record and hold one more record per kept entry |
| FileListing.Listing | Thoughts/Extensions/FileManager.swift:66-79 | the listing succeeds iff the root's record does and no entry's lookup throws; a failing root lookup propagates its own error, a throwing entry a lookup error |
| FileListing.ListedFollowsKept | Thoughts/Extensions/FileManager.swift:67-78 | after the root, record `j` is built from kept entry `j`: its url, raw content type and date, the owner, and uuid `firstUuid + 1 + j` |
| FileListing.ListingEntries | Thoughts/Extensions/FileManager.swift:66-78 | a successful listing's records after the root are the kept entries' records, in order, with owner `ownerURL ?? directoryURL` |
| FileListing.ListingOwner | Thoughts/Extensions/FileManager.swift:66-75 | every record of a listing, the root's included, has owner `ownerURL ?? directoryURL` |
| FileListing.ListingUuidsFresh | Thoughts/Extensions/FileManager.swift:66-78 | record `i` gets uuid `firstUuid + i`, so the uuids are fresh, distinct and increasing |
| FileListing.EntryStep | Thoughts/Extensions/FileManager.swift:67-78 | one more entry extends the records by its record exactly when it is kept |
| FileListing.Files | Thoughts/Extensions/FileManager.swift:54-85 | the loop returns exactly the listing |
| Scanner.IndexById | Thoughts/Utilities/DirectoryScanner.swift:195-203 | every key of the index is the identifier of its record, and every entry is one of the records |
| Scanner.IndexByIdKeys | Thoughts/Utilities/DirectoryScanner.swift:195-203 | the index's keys are exactly the records' identifiers |
| Scanner.IndexOfTableValues | Thoughts/Utilities/DirectoryScanner.swift:193-197 | a snapshot that lists a well-formed table's records indexes back to the same table |
| Scanner.Reconcile | Thoughts/Utilities/DirectoryScanner.swift:205-244 | the loop's deleted set is the snapshot's keys less the walked identifiers, and its additions, updates and state are the specified ones |
| Scanner.ReconciledKeys | Thoughts/Utilities/DirectoryScanner.swift:215-244 | the installed table keeps its keys matching and holds exactly the walked identifiers |
| Scanner.ReconciledAt | Thoughts/Utilities/DirectoryScanner.swift:218-231 | each walked file's entry is its snapshot record, the snapshot record with the new time, or the walked record |
| Scanner.AdditionsMembers | Thoughts/Utilities/DirectoryScanner.swift:227-229 | a record is an addition iff it was walked and the snapshot lacks its identifier |
| Scanner.UpdatesMembers | Thoughts/Utilities/DirectoryScanner.swift:219-223 | every update is a snapshot record not equivalent to the walked one, with the walked time applied |
| Scanner.Merge | Thoughts/Utilities/DirectoryScanner.swift:219-230 | the kept record has the walked modification time; a known file keeps its snapshot identity and uuid, an unknown one is stored as walked |
| Scanner.ReconcileFile | Thoughts/Utilities/DirectoryScanner.swift:218-231 | an equivalent file keeps its snapshot record (same uuid) and is in no batch; a changed one is an update; an unknown one is an addition stored as walked |
| Scanner.WalksSameButUuids | Thoughts/Utilities/DirectoryScanner.swift:206-231 | two walks of the same files that differ only in their fresh uuids have the same identifiers, the same updates and as many additions |
| Scanner.ReconcileIdempotent | Thoughts/Utilities/DirectoryScanner.swift:218-241 | reconciling again, with a snapshot saved from the installed table and a new walk of the same files with fresh uuids, emits no batch, provided no content type changed |
| Scanner.TypeChangeUpdatedAgain | Thoughts/Utilities/DirectoryScanner.swift:219-223 | a file whose content type changed is installed with the old type, is an update against its own installed record, and merges to that record unchanged |
| Scanner.TypeChangeNeverSettles | Thoughts/Utilities/DirectoryScanner.swift:219-223 | after a start in which a tracked file's type changed, the next start with the same walk emits exactly one update batch, holding that record again, and installs it unchanged, so it recurs on every start |
| Scanner.NoAdditionsAgainstReconciled | Thoughts/Utilities/DirectoryScanner.swift:227-229 | against the reconciled table the same walk has no additions |
| Scanner.NoUpdatesAgainstReconciled | Thoughts/Utilities/DirectoryScanner.swift:219-223 | against the reconciled table the same walk has no updates, when no content type changed |
| Scanner.EmptySnapshotCreatesAll | Thoughts/Utilities/DirectoryScanner.swift:205-241 | with an empty snapshot the batches are one creation of the whole walk, or none for an empty walk |
| Scanner.EmptySnapshotNothingElse | Thoughts/Utilities/DirectoryScanner.swift:206-241 | with an empty snapshot every walked record is an addition, in walk order, and there are no updates |
| Scanner.Subtree | Thoughts/Utilities/DirectoryScanner.swift:121 | the subtree of a path holds only tracked keys |
| Scanner.SubtreeHoldsChildren | Thoughts/Utilities/DirectoryScanner.swift:121 | a tracked entry at any depth below a directory is in its subtree |
| Scanner.HandleKeepsKeysMatch | Thoughts/Utilities/DirectoryScanner.swift:67-170 | every event keeps each key equal to its record's identifier |
| Scanner.CreatedEvent | Thoughts/Utilities/DirectoryScanner.swift:71-83 | a creation for a tracked identifier emits nothing and changes nothing; otherwise it is one creation and the record is inserted |
| Scanner.RemovedEvent | Thoughts/Utilities/DirectoryScanner.swift:132-137 | a removal reports exactly one deletion of the identifier, tracked or not, and the key is absent afterwards |
| Scanner.RenamedAway | Thoughts/Utilities/DirectoryScanner.swift:117-130 | a rename away emits exactly one deletion of the identifier and, for a directory, of every tracked key below it; exactly those leave the table, every other entry is kept and the uuid counter is untouched |
| Scanner.RenamedOntoTracked | Thoughts/Utilities/DirectoryScanner.swift:92-103 | a rename onto a tracked path is exactly one update, which keeps the old uuid |
| Scanner.RenamedOntoUntracked | Thoughts/Utilities/DirectoryScanner.swift:105-115 | a rename onto an untracked directory emits one creation of the whole walk and the table becomes the old one plus the walk indexed by identifier; a failing walk emits nothing; onto a file, one creation of the looked-up record |
| Scanner.RenamedLookupFails | Thoughts/Utilities/DirectoryScanner.swift:89-92 | a rename onto an existing path whose lookup throws emits nothing and changes nothing |
| Scanner.ModifiedEvent | Thoughts/Utilities/DirectoryScanner.swift:139-159 | a modification updates a tracked record with its uuid kept, or creates an untracked one; a failed lookup changes nothing |
| Scanner.IgnoredEvents | Thoughts/Utilities/DirectoryScanner.swift:161-170 | clone, ownership, extended-attribute and unknown events emit nothing and change nothing |
| Scanner.DirectoryScanner.constructor | Thoughts/Utilities/DirectoryScanner.swift:44-46 | a new scanner tracks nothing and has emitted nothing |
| Scanner.DirectoryScanner.Start | Thoughts/Utilities/DirectoryScanner.swift:192-244 | the table becomes the reconciliation of the snapshot with the walk, and the log grows by the startup batches |
| Scanner.DirectoryScanner.Install | Thoughts/Utilities/DirectoryScanner.swift:205-244 | the log grows by the startup batches and the table becomes the reconciled one |
| Scanner.DirectoryScanner.HandleEvent | Thoughts/Utilities/DirectoryScanner.swift:67-170 | the new table, the batches logged and the uuid counter are those of the event handler's specification |
| Scanner.DirectoryScanner.ApplyModification | Thoughts/Utilities/DirectoryScanner.swift:139-159 | the shared branch of the two modification events, as specified |
| Scanner.DirectoryScanner.InsertAll | Thoughts/Utilities/DirectoryScanner.swift:109-111 | every walked record is stored under its identifier, later ones winning |
| Scanner.DirectoryScanner.RemoveAll | Thoughts/Utilities/DirectoryScanner.swift:123-125 | exactly the given identifiers leave the table |
| TagLibrary.StringArray | Thoughts/Model/Library.swift:35 | the cast to `[String]` succeeds iff every item is a string, and keeps them in order |
| TagLibrary.TagsFor | Thoughts/Model/Library.swift:32-40 | an unreadable document, a missing `tags` key or a value that is not a string array gives `[]`; a string array gives its strings |
| TagLibrary.RecordingKeys | Thoughts/Model/Library.swift:60-62 | a creation or update adds exactly the Markdown records' identifiers to the cache's keys |
| TagLibrary.RecordingElsewhere | Thoughts/Model/Library.swift:60-62 | identifiers that no Markdown record names keep their entry |
| TagLibrary.RecordingTags | Thoughts/Model/Library.swift:60-61 | each Markdown record's identifier maps to the tags read from its url |
| TagLibrary.DeletionTags | Thoughts/Model/Library.swift:69-84 | after a deletion the union is exactly the tags of the surviving files, a subset of the union before; deleting every identifier leaves none |
| TagLibrary.CreationTagsPublished | Thoughts/Model/Library.swift:59-63 | after a creation, every tag of every created Markdown document is in the union |
| TagLibrary.NonMarkdownIgnored | Thoughts/Model/Library.swift:64-67 | a batch with no Markdown records leaves the cache unchanged |
| TagLibrary.Library.constructor | Thoughts/Model/Library.swift:51-54 | an empty cache and a fresh scanner for the root |
| TagLibrary.StartupRecords | Thoughts/Model/Library.swift:56-75 | delivering the batches of a start from an empty snapshot records the tags of exactly the walked files |
| TagLibrary.Library.Start | Thoughts/Model/Library.swift:56-75 | the scanner starts with an empty snapshot, so the log grows by one creation of the whole walk and the cache records it; the trie holds the union |
| TagLibrary.Library.HandleEvent | Thoughts/Model/Library.swift:56-75 | an event's batches are logged and delivered in order, and the trie holds the union of the cache |
| TagLibrary.Library.Deliver | Thoughts/Model/Library.swift:56-75 | the cache becomes the batches delivered in order, and the trie holds the union |
| TagLibrary.Library.OnFileCreation | Thoughts/Model/Library.swift:59-63 | the Markdown records are recorded and the trie republished |
| TagLibrary.Library.OnFileUpdate | Thoughts/Model/Library.swift:64-68 | the Markdown records are recorded and the trie republished |
| TagLibrary.Library.OnFileDeletion | Thoughts/Model/Library.swift:69-74 | the identifiers leave the cache, unknown ones included, and the trie is republished |
| TagLibrary.Library.RecordTags | Thoughts/Model/Library.swift:60-62 | the loop records every Markdown record's tags, in batch order |
| TagLibrary.Library.UpdateTags | Thoughts/Model/Library.swift:77-85 | a fresh trie whose words are exactly the union of every file's tags |
| Tries.TrieNode.constructor | macos/Thoughts/Utilities/Trie.swift:25-28 | a node with no children that ends no word |
| Tries.Trie.constructor | macos/Thoughts/Utilities/Trie.swift:32-37 | the trie's words are exactly the given words |
| Tries.Trie.AddChild | macos/Thoughts/Utilities/Trie.swift:42-44 | a fresh child is added under one character, and the words are unchanged |
| Tries.Trie.Insert | macos/Thoughts/Utilities/Trie.swift:39-48 | the words become the old words plus the inserted one |
| Tries.Trie.Contains | macos/Thoughts/Utilities/Trie.swift:50-60 | true iff the word was inserted; a proper prefix of a word is not contained unless inserted itself |
| Tries.Trie.WordsWithPrefix | macos/Thoughts/Utilities/Trie.swift:62-72 | the results are exactly the inserted words that start with the prefix, each once; a prefix that leaves the tree gives none |
| Tries.Trie.CollectStep | macos/Thoughts/Utilities/Trie.swift:78-81 | collecting one more child adds exactly the words through that child, keeping every word once |
| Tries.Trie.WordsBelowChildren | macos/Thoughts/Utilities/Trie.swift:78-81 | every stored word strictly below a node continues with one of the node's child characters, so the loop over the children misses none |
| Tries.Trie.CollectWords | macos/Thoughts/Utilities/Trie.swift:74-83 | the words below a node are exactly the inserted words with its path as prefix, each once |
| TimeZones.DigitValue | macos/Thoughts/Extensions/TimeZone.swift:23 | a digit's value is at most 9 |
| TimeZones.TwoDigits | macos/Thoughts/Extensions/TimeZone.swift:23 | a two-digit field is at most 99, with no range check beyond that |
| TimeZones.OffsetFields | macos/Thoughts/Extensions/TimeZone.swift:13 | what follows the sign matches `(\d\d):?(\d\d)?$`: two to five digits and colons, two-digit hours and minutes |
| TimeZones.LastOutsideOffset | macos/Thoughts/Extensions/TimeZone.swift:13 | the last character that cannot follow the sign, with only digits and colons after it |
| TimeZones.RunStart | macos/Thoughts/Extensions/TimeZone.swift:13 | the start of the maximal `[\d:.,]` run before a position |
| TimeZones.Magnitude | macos/Thoughts/Extensions/TimeZone.swift:27-32 | `hours * 3600`, plus `minutes * 60` when minutes were captured |
| TimeZones.Signed | macos/Thoughts/Extensions/TimeZone.swift:34-45 | `-` and `−` negate; `±` passes only a zero offset; `+` keeps it |
| TimeZones.TimeZoneFromIso8601 | macos/Thoughts/Extensions/TimeZone.swift:16-48 | a string ending in `Z` has offset 0 |
| TimeZones.ParseSound | macos/Thoughts/Extensions/TimeZone.swift:13 | whatever the scan finds is a match of the pattern with the captures it reports |
| TimeZones.ParseComplete | macos/Thoughts/Extensions/TimeZone.swift:13 | every match of the pattern is found, with its captures |
| TimeZones.SignIsLastOutside | macos/Thoughts/Extensions/TimeZone.swift:13 | a match's sign is the last character that cannot follow a sign |
| TimeZones.MatchUnique | macos/Thoughts/Extensions/TimeZone.swift:13 | a string matches at one place at most |
| TimeZones.OffsetOfMatch | macos/Thoughts/Extensions/TimeZone.swift:22-47 | without a final `Z`, a match gives its signed offset |
| TimeZones.NoMatchNoZone | macos/Thoughts/Extensions/TimeZone.swift:22-25 | without a final `Z` and without a match there is no time zone |
| TimeZones.NoTimePartNoZone | macos/Thoughts/Extensions/TimeZone.swift:22-25 | a string with no `T` and no final `Z` has no time zone |
| TimeZones.OddDigitsRejected | macos/Thoughts/Extensions/TimeZone.swift:13 | a sign followed by three digits at the end never gives a time zone |
| TimeZones.SwappedSign | macos/Thoughts/Extensions/TimeZone.swift:35-38 | another sign at the matched position keeps the match and gives that sign's offset for the same fields |
| TimeZones.MinusSignsNegate | macos/Thoughts/Extensions/TimeZone.swift:35-38 | putting `-` or `−` in place of a matched `+` gives the negated offset |
| TimeZones.PlusMinusOnlyZero | macos/Thoughts/Extensions/TimeZone.swift:39-43 | with `±` a time zone exists iff the offset is zero, and it is then 0 |
| TimeZones.OffsetOfParts | macos/Thoughts/Extensions/TimeZone.swift:22-47 | date, `T`, a time part, a sign and an offset give the signed offset of the captures |
| TimeZones.ZuluVectors | ThoughtsTests/TimeZoneTests.swift:45-46 | `…T08:40:45Z` and `….24Z` are offset 0 |
| TimeZones.DesignatorPlusHours | ThoughtsTests/TimeZoneTests.swift:30 | `…T08:40:45+01` is +3600 s |
| TimeZones.DesignatorPlusHoursColonMinutes | ThoughtsTests/TimeZoneTests.swift:31 | `…T08:40:45+01:00` is +3600 s |
| TimeZones.DesignatorFractionPlusHoursColonMinutes | ThoughtsTests/TimeZoneTests.swift:32 | `…T08:40:45.24+01:00` is +3600 s |
| TimeZones.DesignatorPlusTwelveColonThirtyFour | ThoughtsTests/TimeZoneTests.swift:34 | `…+12:34` is 12 h 34 min east |
| TimeZones.DesignatorFractionPlusTwelveThirtyFour | ThoughtsTests/TimeZoneTests.swift:35 | `….24+1234` is 12 h 34 min east |
| TimeZones.DesignatorFractionPlusTwelveColonThirtyFour | ThoughtsTests/TimeZoneTests.swift:36 | `….24+12:34` is 12 h 34 min east |
| TimeZones.DesignatorHyphenTwelveColonThirtyFour | ThoughtsTests/TimeZoneTests.swift:38 | `…-12:34` is 12 h 34 min west |
| TimeZones.DesignatorFractionHyphenTwelveThirtyFour | ThoughtsTests/TimeZoneTests.swift:39 | `….24-1234` is 12 h 34 min west |
| TimeZones.DesignatorFractionHyphenTwelveColonThirtyFour | ThoughtsTests/TimeZoneTests.swift:40 | `….24-12:34` is 12 h 34 min west |
| TimeZones.DesignatorMinusSignTwelveColonThirtyFour | ThoughtsTests/TimeZoneTests.swift:42 | `….24−12:34` with U+2212 is 12 h 34 min west |
| TimeZones.DesignatorPlusMinusZero | ThoughtsTests/TimeZoneTests.swift:47 | `….24±00` is offset 0 |
| TimeZones.DateOnlyVector | ThoughtsTests/TimeZoneTests.swift:45-54 | a date alone gives no time zone |
| TimeZones.NoOffsetVector | ThoughtsTests/TimeZoneTests.swift:45-54 | a time without an offset gives no time zone |
| TimeZones.PlusMinusNonZeroVector | ThoughtsTests/TimeZoneTests.swift:45-54 | `±01` gives no time zone |
| Documents.NewDocument | Thoughts/Model/Document.swift:37-41 | a new document has the date, is empty, has no tags and no location |
| Documents.WordLength | Thoughts/Model/Document.swift:46 | the leading run of non-whitespace, ended by whitespace or the end |
| Documents.Tokens | Thoughts/Model/Document.swift:45-47 | every tag is non-empty and holds no whitespace |
| Documents.TokensKeepCharacters | Thoughts/Model/Document.swift:45-47 | the tags joined together are the string's non-whitespace characters, in order |
| Documents.NoTokensIffBlank | Thoughts/Model/Document.swift:45-47 | there are no tags iff the string is all whitespace |
| Documents.TokensAfterBlank | Thoughts/Model/Document.swift:46 | leading whitespace does not change the tags |
| Documents.TokensOfWord | Thoughts/Model/Document.swift:46 | a word followed by whitespace or the end is one tag, followed by the rest's tags |
| Documents.TokensOfJoined | Thoughts/Model/Document.swift:45-47 | words joined with spaces split back into the same words |
| Documents.HeaderMetadata | Thoughts/Model/Document.swift:45-50 | the metadata holds the date with the current zone, the split tags and the location |
| Documents.Frame | Thoughts/Model/Document.swift:53 | the fences add nine characters |
| Documents.UnframeFrame | Thoughts/Model/Document.swift:53 | the encoded block can be read back out of the framed header |
| Documents.Header | Thoughts/Model/Document.swift:43-58 | an encoding failure gives `""`; otherwise the header frames exactly the encoded metadata |
| Documents.TargetURL | Thoughts/Model/Document.swift:65 | the target is the root, `/`, the file name and `.md`, and depends on nothing else |
| Documents.EmptyDocumentNeverWrites | Thoughts/Model/Document.swift:66-70 | an empty document's sync removes its file and touches nothing else, and adds no content |
| Documents.NewDocumentNeverWrites | Thoughts/Model/Document.swift:66-70 | a fresh document's sync only ever removes its target |
| Documents.WrittenFileHoldsContent | Thoughts/Model/Document.swift:71-73 | a non-empty document's file is the header followed by the content |
| Documents.FileStore.FileExists | Thoughts/Model/Document.swift:68 | true iff the store holds the url |
| Documents.FileStore.RemoveItem | Thoughts/Model/Document.swift:69 | on success the url is gone; on failure nothing changes |
| Documents.FileStore.Write | Thoughts/Model/Document.swift:73 | on success the url holds the text; on failure nothing changes |
| Documents.Sync | Thoughts/Model/Document.swift:60-75 | on success the store is the specified outcome for the date-named target; on failure it is unchanged |
| LayoutGeometry.MaxHeight | Thoughts/Layouts/CenteredFlowLayout.swift:74-77 | the tallest subview's height, or 0: at least 0, at least every height, and one of them unless 0 |
| LayoutGeometry.MaxRowWidth | Thoughts/Layouts/CenteredFlowLayout.swift:63-70 | the widest row's summed widths, or 0: at least 0, at least every row, and one of them unless 0 |
| LayoutGeometry.RowPlacements | Thoughts/Layouts/CenteredFlowLayout.swift:91-96 | one placement per subview of the row |
| LayoutGeometry.Placed | Thoughts/Layouts/CenteredFlowLayout.swift:87-98 | one placement per subview of all rows |
| LayoutGeometry.RowPlacementsFollowRow | Thoughts/Layouts/CenteredFlowLayout.swift:91-95 | each subview of a row is placed in order, with its size, on the row's bottom edge |
| LayoutGeometry.RowPlacementsAdvance | Thoughts/Layouts/CenteredFlowLayout.swift:90-96 | x starts at `minX` and moves right by each width plus the spacing |
| LayoutGeometry.PlacedCoversItems | Thoughts/Layouts/CenteredFlowLayout.swift:86-98 | every subview of every row is placed once, in order, with its size |
| LayoutGeometry.LastRowOnBottomEdge | Thoughts/Layouts/CenteredFlowLayout.swift:88-97 | the last row's bottom edge is `minY` plus the heights of all rows |
| LayoutGeometry.PlaceRow | Thoughts/Layouts/CenteredFlowLayout.swift:90-96 | the inner loop places exactly the specified row |
| LayoutGeometry.PlaceRows | Thoughts/Layouts/CenteredFlowLayout.swift:86-99 | the nested loop makes exactly the specified placements |
| CenteredFlow.Rows | Thoughts/Layouts/CenteredFlowLayout.swift:27-52 | no proposed width gives one empty row; no subviews give no rows |
| CenteredFlow.AccumulatedClosedForm | Thoughts/Layouts/CenteredFlowLayout.swift:38-47 | the first row counts `Σw + (n−1)·spacing`, later rows `Σw + n·spacing` |
| CenteredFlow.ScanKeepsInvariant | Thoughts/Layouts/CenteredFlowLayout.swift:36-47 | the loop keeps every subview in order, tracks the open row's width, and wraps greedily |
| CenteredFlow.ScanRowWidth | Thoughts/Layouts/CenteredFlowLayout.swift:38-46 | `rowWidth` is the open row's accumulated width |
| CenteredFlow.RowsKeepItems | Thoughts/Layouts/CenteredFlowLayout.swift:32-51 | the rows together are the subviews, in order, with their fitted sizes |
| CenteredFlow.RowsWrapped | Thoughts/Layouts/CenteredFlowLayout.swift:39-47 | each subview stays on its row iff it fits after the ones before it; each later row starts with one that did not fit |
| CenteredFlow.EmptyRowOnlyFirst | Thoughts/Layouts/CenteredFlowLayout.swift:38-46 | only the first row can be empty, and it is iff the first subview alone is wider than the proposal |
| CenteredFlow.FullRowsWithinWidth | Thoughts/Layouts/CenteredFlowLayout.swift:38-47 | every row of two or more subviews, and a non-empty first row, stays within the width as the loop counts it |
| CenteredFlow.RowsWithinShownWidth | Thoughts/Layouts/CenteredFlowLayout.swift:38-47 | with a non-negative spacing, the same rows measured as shown, widths plus one spacing between neighbours, stay within the width |
| CenteredFlow.ComputeRows | Thoughts/Layouts/CenteredFlowLayout.swift:27-52 | the loop returns exactly the specified rows |
| CenteredFlow.SizeThatFits | Thoughts/Layouts/CenteredFlowLayout.swift:60-84 | the width is at least 0 and is the widest row's widths without spacing; the height is the rows' heights added up |
| CenteredFlow.NoProposalNoSize | Thoughts/Layouts/CenteredFlowLayout.swift:28-30 | with no proposed width the size is zero |
| CenteredFlow.PlaceSubviews | Thoughts/Layouts/CenteredFlowLayout.swift:86-99 | the placements are those of the specified rows |
| CenteredFlow.PlacementsCoverSubviews | Thoughts/Layouts/CenteredFlowLayout.swift:86-99 | every subview is placed once, in order, with its fitted size |
| CenteredFlow.LastSubviewAtReportedHeight | Thoughts/Layouts/CenteredFlowLayout.swift:86-99 | the last subview sits on the bottom edge of the reported height |
| TagView.StretchedWidth | Thoughts/Layouts/TagViewLayout.swift:48-49 | without a break the stretched width is at least the fitted width; after a break it is the width less one spacing |
| TagView.Stretch | Thoughts/Layouts/TagViewLayout.swift:40-51 | the break for the last subview is decided on its fitted width, and the row then counts exactly the proposed width |
| TagView.TagRows | Thoughts/Layouts/TagViewLayout.swift:27-61 | no proposed width gives one empty row; no subviews give no rows |
| TagView.SameBreaksAsCenteredFlow | Thoughts/Layouts/TagViewLayout.swift:39-56 | the rows break where the plain line-breaker's do; only the last subview differs |
| TagView.TagRowsKeepItems | Thoughts/Layouts/TagViewLayout.swift:39-60 | the rows together are the subviews in order, all but the last with their fitted size, the last with its height and the stretched width |
| TagView.LastRowFills | Thoughts/Layouts/TagViewLayout.swift:48-51 | the last row's accumulated width is exactly the proposed width |
| TagView.ComputeTagRows | Thoughts/Layouts/TagViewLayout.swift:27-61 | the loop returns exactly the specified rows |
| TagView.TagSizeThatFits | Thoughts/Layouts/TagViewLayout.swift:73-95 | with a proposed width that width is reported; the height is the rows' heights added up |
| TagView.TagNoProposalNoSize | Thoughts/Layouts/TagViewLayout.swift:73-95 | with no proposed width the size is zero |
| TagView.TagPlaceSubviews | Thoughts/Layouts/TagViewLayout.swift:97-110 | the placements are those of the specified rows |
| TagView.TagPlacementsCoverSubviews | Thoughts/Layouts/TagViewLayout.swift:97-110 | every subview is placed once in order, all but the last with their fitted size, the last stretched on the bottom edge |

## Left out

- The event stream: `FSEventStream`, the work queues, `startWatching`, `stop()` and the delegate call are concurrency and a foreign API. Each event is instead a value passed to `HandleEvent`.
- Scanner.DirectoryScanner.Start: the `try!` startup walk is a precondition. A failing walk stops the program and has no modelled outcome.
- URL and UTType lookups (`isDirectory`, `contentType`, `contentModificationDate`, `conforms(to: .markdown)`) are a `FileSystem` value and a content-type datatype. Paths are strings without `URL`'s normalisation. Percent-encoding is not modelled, nor the trailing slash that `URL(filePath:itemType:)` adds to directories.
- FileListing.Files: the two `precondition`s that `directoryURL` and `ownerURL` are directory URLs trap the program, and they are not modelled. Paths carry no trailing slash here, so there is nothing they could test.
- The enumerator's `skipsHiddenFiles` option and its force-unwrap are not modelled. The enumerated entries are given as input.
- `UUID()` is a counter, so the fresh uuids are distinct but not random.
- The callbacks receive Swift collections. For sets (the deletion batch, `current`, `files.values`), the model fixes an order: a sequence, or a choice with `:|`. Set iteration order is not modelled.
- Tries.Trie.CollectWords: the result order depends on dictionary iteration order. The contract states membership and distinctness, not order. The child keys are Unicode scalars, not grapheme clusters, as for `Insert`.
- Tries.Trie.Insert: a character is a Unicode scalar value compared by code point, not a Swift `Character` (an extended grapheme cluster compared under canonical equivalence). A word with combining marks therefore takes more nodes, and canonically equivalent spellings are different words.
- Tries.Trie.Contains: characters are compared by code point, not as grapheme clusters under canonical equivalence, as for `Insert`.
- Tries.Trie.WordsWithPrefix: the prefix is walked by Unicode scalar, not by grapheme cluster, and compared by code point, as for `Insert`.
- TagLibrary.TagUnion: tags are compared by code point, not under the canonical equivalence of Swift `String` equality. Two canonically equivalent spellings of a tag are two tags here.
- TagLibrary.Library.UpdateTags: the union it publishes compares tags by code point, as for `TagUnion`.
- Documents.Tokens: the split works on Unicode scalars, not on the grapheme clusters that Swift's regular expressions match by default. Swift tests `\s` against whole characters, so the two can differ on a whitespace scalar followed by a combining mark.
- `FrontmatterDocument`, `YAMLEncoder` and `DateFormatter` are foreign serialisers. They are parameters that may fail. The file name is an abstract function of the date.
- TagLibrary.Library.UpdateTags: the trie is assigned directly. The `DispatchQueue.main.async` hop to the main actor is not modelled.
- TimeZones.TimeZoneFromIso8601: `\d` is read as the ASCII digits, not every Unicode decimal digit. Characters are Unicode scalars, not grapheme clusters.
- The range check that `TimeZone(secondsFromGMT:)` applies is not modelled. The result is the offset in seconds.
- Thoughts/Model/RegionalDate.swift, Location.swift and both ApplicationModel files are not part of this model. A location is a type parameter, and a regional date is a date with a zone offset.
- The layouts use `CGFloat`, which is modelled as `real`, so IEEE-754 rounding is not modelled. The SwiftUI `sizeThatFits(.unspecified)` calls become the subviews' fitted sizes, given as input. `place(at:anchor:proposal:)` calls are recorded as a list of placements.
- The outcome of every file write and removal is a parameter of `Sync` and `FileStore`. Real file-system I/O is not modelled.
- `print` logging is left out everywhere.
