# phpactor indexer storage, modelled in Dafny

This project models the storage side of the phpactor indexer:

- the **record values** the index stores, with the behaviour of
  `FunctionRecord` and `ConstantRecord` and the append-only definition list
  of `HasDefinitionsTrait`;
- the **serialized file store** `FileRepository`. Each record is stored in
  its own file under `<root>/<recordType>_<h0>/<h1>/<md5>.cache`, and
  `timestamp.v3` records the last update;
- the **write-behind buffer** `BufferedRepository` in front of that store.
  It flushes every 10000th put;
- the **SQLite search index** `SqliteSearchIndex`. It buffers writes, and once
  the buffer holds more than 1000 records it flushes them all (1001 at a
  time when only writes intervene) with `INSERT OR IGNORE`, and translates `Criteria` into
  an SQL condition with named parameters. A search flushes first, then scans
  the matching rows, rebuilding each row as a record and keeping those that
  satisfy the criteria;
- the **member query** `MemberQuery`. It resolves `type#name` to a member
  record and labels every reference to it `surely`, `maybe` or `not`
  against an optional container type;
- the **dirty file log** `DirtyFileListProvider`. It logs each path once per
  instance and drains the log as a file list.

Files:

| file | module | contents |
|---|---|---|
| `wrappers.dfy` | `Wrappers` | `Option`, `Result` |
| `records.dfy` | `Records` | the `Record` union, record types and keys, `fromName`/`__toString`, `type#name` identifiers, rebuilding a record from its key |
| `has_definitions.dfy` | `Definitions` | class `HasDefinitions` |
| `file_repository.dfy` | `SerializedFileRepository` | paths, PHP int/string conversion, `Read`/`Store`/`PutAll`, class `FileRepository` |
| `buffered_repository.dfy` | `BufferedRepositories` | class `BufferedRepository`, buffer-order invariant |
| `search_index.dfy` | `SqliteSearch` | criteria translation (`Convert`), the table as a map, class `SqliteSearchIndex` |
| `member_query.dfy` | `MemberQueries` | `Get`, `MemberReferences` and the confidence rules |
| `dirty_files.dfy` | `DirtyFiles` | `Mark`/`Drain`, the drain as written, class `DirtyFileListProvider` |

Modelling choices:

- The filesystem is a map from path to contents. SQLite tables are maps keyed
  by their unique columns, or a sequence for `dirty_files`.
- md5 and the record serializer are values given at construction.
- Outcomes of the world are parameters: whether `unlink` succeeds, the
  current `time()`, whether a statement can be prepared, and the database's
  verdict on a row for a `WHERE` condition.
- Records are values. A record handed to `put`/`write` is captured as it is at that call (see Left out).
- Classes stay classes. State that the PHP objects change in place lives in
  fields, and each method's `ensures` states the new state as a function of
  the old one.

## Model

| member | source | states |
|---|---|---|
| `Records.Record.RecordType` | lib/Indexer/Model/Record/FunctionRecord.php:26-29 | a record's type is one of the five record-type constants, and it is `class`, `function`, `constant`, `member` or `file` exactly when the record is of that class |
| `Records.RecordTypeDeterminesClass` | lib/Indexer/Model/Record/FunctionRecord.php:26-29 | every record type is one of the five constants, and two records share a record type exactly when they are of the same class |
| `Records.FunctionFromName` | lib/Indexer/Model/Record/FunctionRecord.php:20-23 | `fromName` gives a function record whose type is `function` and whose identifier is the name, with no path, offsets or file references |
| `Records.ConstantFromName` | lib/Indexer/Model/Record/ConstantRecord.php:19-22 | `fromName` gives a constant record whose type is `constant` and whose identifier is the name, with no path or offsets |
| `Records.DescriptionRoundTrip` | lib/Indexer/Model/Record/FunctionRecord.php:15-18 | the fqn can always be read back out of `<class> (<fqn>)` |
| `Records.FunctionRecordString` | lib/Indexer/Model/Record/FunctionRecord.php:15-18 | a function record's string starts with its class name and parses back to its fqn |
| `Records.ConstantRecordString` | lib/Indexer/Model/Record/ConstantRecord.php:14-17 | a constant record's string starts with its class name and parses back to its fqn |
| `Records.StringFormsDistinguishClasses` | lib/Indexer/Model/Record/ConstantRecord.php:14-17 | a function record and a constant record never have the same string form, whatever their fqns |
| `Records.RecordCapabilities` | lib/Indexer/Model/Record/FunctionRecord.php:8 | a function record has file references and a path; a constant record has a path but no file references (ConstantRecord.php:8); neither has flags |
| `Records.MemberFromIdentifier` | lib/Indexer/Model/Query/MemberQuery.php:23-27 | a member record parsed from an identifier has exactly that identifier |
| `Records.MemberIdentifierRoundTrip` | lib/Indexer/Model/Query/MemberQuery.php:79-82 | parsing `type#name` gives back the member of that type and name |
| `Records.CreateRecord` | lib/Indexer/Adapter/Sqlite/SqliteSearchIndex.php:91 | a record type that is not one of the five gives nothing; a class, function, constant or file type always gives a record; a member type gives one exactly when the identifier is `type#name`; any record given has exactly the requested key |
| `Records.CreateRecordRestoresKey` | lib/Indexer/Adapter/Sqlite/SqliteSearchIndex.php:91 | every record's stored `(record_type, identifier)` can be rebuilt into a record with the same key |
| `Definitions.HasDefinitions.constructor` | lib/Indexer/Model/Record/HasDefinitionsTrait.php:9 | the definition list starts empty |
| `Definitions.HasDefinitions.AddDefinition` | lib/Indexer/Model/Record/HasDefinitionsTrait.php:11-20 | `addDefinition` returns the same object, and `definitions()` is then the old list with the URI appended, duplicates included |
| `Definitions.HasDefinitions.Definitions` | lib/Indexer/Model/Record/HasDefinitionsTrait.php:17-20 | `definitions()` returns the stored list itself, which only `addDefinition` extends |
| `SerializedFileRepository.ShardSuffix` | lib/Indexer/Adapter/Php/Serialized/FileRepository.php:141-148 | the path suffix is `_`, the md5's first character, `/`, its second character, `/`, then the whole md5 and `.cache`: 43 characters |
| `SerializedFileRepository.PathForDependsOnKey` | lib/Indexer/Adapter/Php/Serialized/FileRepository.php:138-149 | records with the same record type and identifier are stored at the same path |
| `SerializedFileRepository.PathForInjective` | lib/Indexer/Adapter/Php/Serialized/FileRepository.php:138-149 | two records share a path only when they share a record type and an md5 |
| `SerializedFileRepository.PathFor` | lib/Indexer/Adapter/Php/Serialized/FileRepository.php:138-149 | a record's path lies inside the repository's directory and ends in the md5 of its identifier followed by `.cache` |
| `SerializedFileRepository.PathForLayout` | lib/Indexer/Adapter/Php/Serialized/FileRepository.php:141-148 | after `<root>/` a record path holds the record type followed by the 43-character shard suffix |
| `SerializedFileRepository.TimestampPath` | lib/Indexer/Adapter/Php/Serialized/FileRepository.php:133-136 | the timestamp file is `timestamp.v3` directly inside the repository's directory |
| `SerializedFileRepository.TimestampPathIsNoRecordPath` | lib/Indexer/Adapter/Php/Serialized/FileRepository.php:133-136 | the timestamp file lies inside the directory and is never a record's path |
| `SerializedFileRepository.TimestampPathNamesVersion` | lib/Indexer/Adapter/Php/Serialized/FileRepository.php:133-136 | the timestamp file is `timestamp.v` followed by VERSION (3, line 17) in decimal |
| `SerializedFileRepository.Decimal` | lib/Indexer/Adapter/Php/Serialized/FileRepository.php:83 | the decimal text of an int is non-empty, starts with `-` exactly when the int is negative, and is digits otherwise |
| `SerializedFileRepository.ParseInt` | lib/Indexer/Adapter/Php/Serialized/FileRepository.php:128 | the `(int)` cast of an all-digit string is the digits' value, and a negative result needs a leading `-` after the whitespace |
| `SerializedFileRepository.DigitsReadBack` | lib/Indexer/Adapter/Php/Serialized/FileRepository.php:128 | in an all-digit string the leading number the cast reads is the whole string's value |
| `SerializedFileRepository.ParseIntDecimal` | lib/Indexer/Adapter/Php/Serialized/FileRepository.php:125-131 | the `(int)` cast of an int written by `file_put_contents` gives back that int, negative ones included |
| `SerializedFileRepository.Read` | lib/Indexer/Adapter/Php/Serialized/FileRepository.php:41-77 | `get` returns a record only when the file exists and deserializes to that very record, and the record is then of the prototype's class; an existing file that deserializes to a record of the prototype's class is always returned |
| `SerializedFileRepository.FilesAfterGet` | lib/Indexer/Adapter/Php/Serialized/FileRepository.php:45-59 | a `get` removes at most the file it reads, and only when that file is corrupt; a corrupt file is removed whenever the unlink succeeds (the store heals itself); a missing file leaves the store as it was |
| `SerializedFileRepository.GetWarnings` | lib/Indexer/Adapter/Php/Serialized/FileRepository.php:45-74 | a `get` logs nothing for a missing file or a returned record; a corrupt file logs the corruption first, followed by a warning about the failed unlink only when the unlink fails; a payload of another class logs one invalid-entry warning |
| `SerializedFileRepository.Store` | lib/Indexer/Adapter/Php/Serialized/FileRepository.php:29-34 | `put` makes the record's path hold its serialization, adds only that path, and leaves every other path's contents as they were |
| `SerializedFileRepository.PutThenGet` | lib/Indexer/Adapter/Php/Serialized/FileRepository.php:41-77 | after `put(r)`, a `get` with a prototype of the same key returns `r` when the serializer round-trips it |
| `SerializedFileRepository.LaterPutWins` | lib/Indexer/Adapter/Php/Serialized/FileRepository.php:29-34 | a second `put` to the same key replaces the first |
| `SerializedFileRepository.PutKeepsOthers` | lib/Indexer/Adapter/Php/Serialized/FileRepository.php:29-34 | a `put` leaves every record with a different record type or md5 readable as before |
| `SerializedFileRepository.PutAllStoresEach` | lib/Indexer/Adapter/Php/BufferedRepository.php:51-53 | after a sequence of puts with pairwise distinct paths, each record's serialization is at its path |
| `SerializedFileRepository.PutAllKeepsOthers` | lib/Indexer/Adapter/Php/BufferedRepository.php:51-53 | a sequence of puts changes no path outside the records' own |
| `SerializedFileRepository.PutAllKeepsTimestamp` | lib/Indexer/Adapter/Php/BufferedRepository.php:51-53 | a sequence of puts leaves the stored timestamp as it was |
| `SerializedFileRepository.FileRepository.constructor` | lib/Indexer/Adapter/Php/Serialized/FileRepository.php:21-27 | `lastUpdate` is the `(int)` of the timestamp file, or 0 when it is missing |
| `SerializedFileRepository.FileRepository.Put` | lib/Indexer/Adapter/Php/Serialized/FileRepository.php:29-34 | the record's serialization is written to its path, replacing what was there; the timestamp invariant holds |
| `SerializedFileRepository.FileRepository.Get` | lib/Indexer/Adapter/Php/Serialized/FileRepository.php:41-77 | a missing file gives null; a corrupt payload gives a warning, an unlink, and null; a null payload gives null; a payload of another class gives a warning and null; only a same-class payload is returned |
| `SerializedFileRepository.FileRepository.PutTimestamp` | lib/Indexer/Adapter/Php/Serialized/FileRepository.php:79-85 | `time ?? now` is written to the timestamp file and becomes `lastUpdate`, and a fresh instance would read the same value |
| `SerializedFileRepository.FileRepository.LastUpdate` | lib/Indexer/Adapter/Php/Serialized/FileRepository.php:87-90 | the value returned is the timestamp stored on disk |
| `SerializedFileRepository.FileRepository.Reset` | lib/Indexer/Adapter/Php/Serialized/FileRepository.php:92-96 | everything under the directory is removed except a timestamp of 0; files outside it are untouched |
| `SerializedFileRepository.FileRepository.Remove` | lib/Indexer/Adapter/Php/Serialized/FileRepository.php:98-114 | a missing file is a no-op; otherwise the file is unlinked, or a warning is logged when the unlink fails |
| `BufferedRepositories.BatchPosition` | lib/Indexer/Adapter/Php/BufferedRepository.php:32 | `counter % BATCH_SIZE` is below BATCH_SIZE |
| `BufferedRepositories.BufferKeyInjective` | lib/Indexer/Adapter/Php/BufferedRepository.php:57-60 | the concatenated buffer key `recordType . identifier` is equal for two records exactly when their keys are |
| `BufferedRepositories.EnqueueKeepsOrdered` | lib/Indexer/Adapter/Php/BufferedRepository.php:30 | a put into the PHP array keeps each key once in insertion order (a replaced key keeps its place), and the buffer grows by at most one |
| `BufferedRepositories.CounterStep` | lib/Indexer/Adapter/Php/BufferedRepository.php:32 | each put either completes a batch or moves one step further within it |
| `BufferedRepositories.BufferedRepository.constructor` | lib/Indexer/Adapter/Php/BufferedRepository.php:24-26 | the buffer starts empty with the counter at 0 |
| `BufferedRepositories.BufferedRepository.Put` | lib/Indexer/Adapter/Php/BufferedRepository.php:28-35 | the record replaces any pending record with its key; on every BATCH_SIZE-th put the whole buffer is written through in insertion order and emptied, otherwise the store is untouched; the buffer never outgrows the puts since the last batch |
| `BufferedRepositories.BufferedRepository.Get` | lib/Indexer/Adapter/Php/BufferedRepository.php:37-47 | a buffered record is returned without touching the store; otherwise the store's `get` answer is returned, and the store's files and warnings change exactly as that `get` changes them; the result is always of the prototype's class |
| `BufferedRepositories.BufferedRepository.Flush` | lib/Indexer/Adapter/Php/BufferedRepository.php:49-55 | the store receives `put` of every buffered record in insertion order, then the buffer is empty; the counter is not reset |
| `BufferedRepositories.BufferedRepository.PutEach` | lib/Indexer/Adapter/Php/BufferedRepository.php:51-53 | the `foreach` of a flush: the store ends as the puts of the records in order |
| `BufferedRepositories.BufferedKeysDistinct` | lib/Indexer/Adapter/Php/BufferedRepository.php:30 | the records a flush writes have pairwise different keys |
| `BufferedRepositories.FlushStoresLastWrite` | lib/Indexer/Adapter/Php/BufferedRepository.php:49-55 | after a flush, each buffered key reads back as the record last put under it, unless two buffered records collide on md5 |
| `SqliteSearch.WhereClause` | lib/Indexer/Adapter/Sqlite/SqliteSearchIndex.php:73-75 | an empty condition adds nothing; any other condition is preceded by ` WHERE ` |
| `SqliteSearch.Convert` | lib/Indexer/Adapter/Sqlite/SqliteSearchIndex.php:161-201 | a successful translation binds only `:identifier` and `:record_type` |
| `SqliteSearch.ConvertParts` | lib/Indexer/Adapter/Sqlite/SqliteSearchIndex.php:172-180 | from any part on, the loop's parameters bind no name beyond those already accumulated, `:identifier` and `:record_type` |
| `SqliteSearch.ConvertPartsFrom` | lib/Indexer/Adapter/Sqlite/SqliteSearchIndex.php:172-180 | the `for` loop's accumulated condition and parameters after `i` parts are the join and merge of those parts |
| `SqliteSearch.ConvertAnd` | lib/Indexer/Adapter/Sqlite/SqliteSearchIndex.php:171-181 | an `And` of translatable parts is `(p0) AND (p1) ...` with the parts' parameters merged left to right |
| `SqliteSearch.ConvertPartsFails` | lib/Indexer/Adapter/Sqlite/SqliteSearchIndex.php:172-174 | from any part on, the loop fails with the error of the first failing part |
| `SqliteSearch.ConvertAndFails` | lib/Indexer/Adapter/Sqlite/SqliteSearchIndex.php:171-181 | an `And` throws the NotSupported message of its first untranslatable part |
| `SqliteSearch.ConvertOkIffSupported` | lib/Indexer/Adapter/Sqlite/SqliteSearchIndex.php:161-201 | the translation succeeds exactly when no unsupported criterion occurs at any depth |
| `SqliteSearch.UnsupportedMessage` | lib/Indexer/Adapter/Sqlite/SqliteSearchIndex.php:198-200 | an unsupported criterion throws `Criteria "<class>" not supported by SQLite` |
| `SqliteSearch.ClassCriteriaAgree` | lib/Indexer/Adapter/Sqlite/SqliteSearchIndex.php:184-185 | IsClass and IsClassType both translate to `record_type = :record_type` with `class` |
| `SqliteSearch.EmptyAndSelectsAll` | lib/Indexer/Adapter/Sqlite/SqliteSearchIndex.php:171-181 | an empty `And` gives an empty condition, so the SELECT has no WHERE clause |
| `SqliteSearch.SingleAnd` | lib/Indexer/Adapter/Sqlite/SqliteSearchIndex.php:175-178 | a one-part `And` is its part in parentheses with the same parameters |
| `SqliteSearch.AndParametersCollide` | lib/Indexer/Adapter/Sqlite/SqliteSearchIndex.php:179 | parts binding the same name share one parameter with the last part's value: `IsClass AND IsFunction` binds `:record_type` to `function` for both |
| `SqliteSearch.MergedLastWins` | lib/Indexer/Adapter/Sqlite/SqliteSearchIndex.php:179 | after `array_merge`, a name's value comes from the last map that binds it |
| `SqliteSearch.MergedKeys` | lib/Indexer/Adapter/Sqlite/SqliteSearchIndex.php:179 | a merge binds a name exactly when one of the merged maps does |
| `SqliteSearch.InsertOrIgnore` | lib/Indexer/Adapter/Sqlite/SqliteSearchIndex.php:135-146 | an insert is skipped when the key already has a row (UNIQUE index, line 59) or when the type is null (NOT NULL, line 56); otherwise it adds the row with the class type or '' and the flags or 0 |
| `SqliteSearch.InsertAll` | lib/Indexer/Adapter/Sqlite/SqliteSearchIndex.php:141-147 | the flush loop never deletes a row, and every key it adds is the key of one of the flushed records |
| `SqliteSearch.InsertAllKeeps` | lib/Indexer/Adapter/Sqlite/SqliteSearchIndex.php:141-147 | a flush never changes an existing row |
| `SqliteSearch.InsertAllNoOther` | lib/Indexer/Adapter/Sqlite/SqliteSearchIndex.php:141-147 | a flush adds rows only for keys of flushed records |
| `SqliteSearch.InsertAllFirstWins` | lib/Indexer/Adapter/Sqlite/SqliteSearchIndex.php:141-147 | for a new key, the first flushed record with that key and a non-null type is the one stored |
| `SqliteSearch.InsertAllSkipsNull` | lib/Indexer/Adapter/Sqlite/SqliteSearchIndex.php:144 | a key whose flushed records all have a null type, or which no flushed record has, gets no row |
| `SqliteSearch.InsertAllRowsFromRecords` | lib/Indexer/Adapter/Sqlite/SqliteSearchIndex.php:141-147 | every row a flush adds carries the type and flags of a flushed record with its key |
| `SqliteSearch.RemoveRow` | lib/Indexer/Adapter/Sqlite/SqliteSearchIndex.php:119-130 | a `DELETE` removes at most the row of the record's own key |
| `SqliteSearch.RemoveRowEffect` | lib/Indexer/Adapter/Sqlite/SqliteSearchIndex.php:119-130 | the row of the record's key is deleted exactly when its type column equals the record's type (a null type matches nothing); no other row changes |
| `SqliteSearch.ResetTable` | lib/Indexer/Adapter/Sqlite/SqliteSearchIndex.php:153-158 | exactly the class rows are deleted; every other row is kept unchanged |
| `SqliteSearch.RowRecord` | lib/Indexer/Adapter/Sqlite/SqliteSearchIndex.php:90-95 | a row rebuilds into a record with the row's own key, or into nothing |
| `SqliteSearch.ClassRowRoundTrip` | lib/Indexer/Adapter/Sqlite/SqliteSearchIndex.php:91-95 | a class record with a type, written as a row and read back with `withType`/`setFlags`, is the same record |
| `SqliteSearch.RowRecordKeepsKey` | lib/Indexer/Adapter/Sqlite/SqliteSearchIndex.php:91 | the row of any record's key rebuilds into a record with that key |
| `SqliteSearch.SqliteSearchIndex.constructor` | lib/Indexer/Adapter/Sqlite/SqliteSearchIndex.php:44-64 | an existing table is kept and a missing one is created empty; the buffer starts empty |
| `SqliteSearch.SqliteSearchIndex.Write` | lib/Indexer/Adapter/Sqlite/SqliteSearchIndex.php:109-117 | the record is buffered; when the buffer then holds more than 1000 records they are all flushed |
| `SqliteSearch.SqliteSearchIndex.Flush` | lib/Indexer/Adapter/Sqlite/SqliteSearchIndex.php:132-151 | the table becomes the `INSERT OR IGNORE` of the buffered records in order, and the buffer and counter are reset |
| `SqliteSearch.SqliteSearchIndex.Remove` | lib/Indexer/Adapter/Sqlite/SqliteSearchIndex.php:119-130 | the table after the `DELETE` (see RemoveRowEffect); the buffer is untouched, so a pending write is not cancelled |
| `SqliteSearch.SqliteSearchIndex.Reset` | lib/Indexer/Adapter/Sqlite/SqliteSearchIndex.php:153-158 | the class rows are deleted, and buffered records stay buffered |
| `SqliteSearch.SqliteSearchIndex.Search` | lib/Indexer/Adapter/Sqlite/SqliteSearchIndex.php:66-107 | pending writes are flushed first; an unsupported criterion and an unpreparable statement are errors; a supported criterion with a prepared statement succeeds unless an admitted row cannot be rebuilt, and always succeeds when every admitted row can be; on success it yields exactly the stored records, each once, that the condition admits (all of them for an empty condition) and that satisfy the criteria |
| `SqliteSearch.SqliteSearchIndex.Scan` | lib/Indexer/Adapter/Sqlite/SqliteSearchIndex.php:87-106 | the loop yields each admitted row once, rebuilt as a record, when it satisfies the criteria; it skips those that do not; it fails on a row that cannot be rebuilt |
| `SqliteSearch.SearchSeesEarlierWrite` | lib/Indexer/Adapter/Sqlite/SqliteSearchIndex.php:66-70 | a buffered write with a non-null type, the first of its key, under a key without a row, has a rebuildable row once the search's flush has run |
| `MemberQueries.Index.Get` | lib/Indexer/Model/Query/MemberQuery.php:50 | the index answers with the stored record for the prototype's key, or with the prototype itself, and in a consistent index always with a record of that key |
| `MemberQueries.Get` | lib/Indexer/Model/Query/MemberQuery.php:21-34 | a non-member identifier gives null; otherwise the member is returned exactly when the index has it, and it is the stored record |
| `MemberQueries.GetByTypeAndName` | lib/Indexer/Model/Query/MemberQuery.php:79-82 | a lookup by type and name returns exactly the record stored under `(member, type#name)` |
| `MemberQueries.ReferencesTo` | lib/Indexer/Model/Query/MemberQuery.php:53 | a reference of the file is kept exactly when it points at the member's record type and identifier; when all of them do, all are kept |
| `MemberQueries.ReferencesToConcat` | lib/Indexer/Model/Query/MemberQuery.php:53 | the references kept from two lists in a row are those kept from each, in order, so file order is preserved |
| `MemberQueries.ReferencesToSnoc` | lib/Indexer/Model/Query/MemberQuery.php:53 | one more reference at the end of the file is kept at the end exactly when it points at the member |
| `MemberQueries.ReferencesToSingle` | lib/Indexer/Model/Query/MemberQuery.php:53 | a single reference is kept exactly when it points at the member |
| `MemberQueries.Enhanced` | lib/Indexer/Model/Query/MemberQuery.php:54-56 | the enhancer is applied exactly when a truthy container type is asked for and the reference has none; otherwise the reference is used as it is |
| `MemberQueries.Classify` | lib/Indexer/Model/Query/MemberQuery.php:54-62 | every item is located in the referencing file; a reference that is not enhanced keeps its own offsets and its own label |
| `MemberQueries.MemberReferences` | lib/Indexer/Model/Query/MemberQuery.php:39-77 | an unknown member yields nothing; a known member yields exactly one item per reference to it in its referenced files |
| `MemberQueries.FileItems` | lib/Indexer/Model/Query/MemberQuery.php:53-75 | a file yields one classified item per reference to the member, in file order |
| `MemberQueries.UnknownMemberHasNoReferences` | lib/Indexer/Model/Query/MemberQuery.php:41-45 | a member the index does not have yields nothing |
| `MemberQueries.NoHashNoMember` | lib/Indexer/Model/Query/MemberQuery.php:23-25 | an identifier without `#` is no member identifier and gives null |
| `MemberQueries.UnknownMemberTypeNoMember` | lib/Indexer/Model/Query/MemberQuery.php:23-27 | an identifier whose part before the first `#` is no member type gives null |
| `MemberQueries.ConfidenceOf` | lib/Indexer/Model/Query/MemberQuery.php:64-74 | `maybe` exactly when the reference has no container type; `not` exactly when it has one and a truthy requested type differs; `surely` otherwise |
| `MemberQueries.NoContainerTypeNeverNot` | lib/Indexer/Model/Query/MemberQuery.php:54-74 | without a truthy container type nothing is `not`, and the label depends only on whether the reference has a container type |
| `MemberQueries.EnhancerOnlyForMissingContainer` | lib/Indexer/Model/Query/MemberQuery.php:54-56 | the enhancer cannot change the item of a reference that has a container type, or of any reference when no container type is asked for |
| `MemberQueries.UnresolvedIsMaybe` | lib/Indexer/Model/Query/MemberQuery.php:64-67 | a reference still without a container type after enhancement is `maybe` |
| `MemberQueries.FilesItemsCount` | lib/Indexer/Model/Query/MemberQuery.php:49-76 | the query yields one item per reference to the member across its referenced files |
| `MemberQueries.FilesItemsPrefix` | lib/Indexer/Model/Query/MemberQuery.php:49-76 | the items of earlier referenced files come before those of later ones |
| `MemberQueries.FileForIsFileRecord` | lib/Indexer/Model/Query/MemberQuery.php:50-51 | in a consistent index a referenced path is fetched as a file record with that path, so the `assert` holds |
| `MemberQueries.FileItemsLocations` | lib/Indexer/Model/Query/MemberQuery.php:58-62 | each item's location is in the referencing file; its reference is one of that file's references to the member; its offsets are the reference's own when no enhancement applies |
| `DirtyFiles.Mark` | lib/Indexer/Adapter/Sqlite/DirtyFileListProvider.php:34-47 | a path already seen changes nothing; a new one is appended to the table and remembered |
| `DirtyFiles.MarkAll` | lib/Indexer/Adapter/Sqlite/DirtyFileListProvider.php:34-47 | marking only appends: the old rows stay a prefix |
| `DirtyFiles.MarkIdempotent` | lib/Indexer/Adapter/Sqlite/DirtyFileListProvider.php:36-38 | marking a path twice is marking it once |
| `DirtyFiles.MarkAllLogsOnce` | lib/Indexer/Adapter/Sqlite/DirtyFileListProvider.php:34-47 | after any sequence of marks the new rows are pairwise distinct and are exactly the marked paths not seen before, and `seen` has grown by exactly the marked paths |
| `DirtyFiles.Drain` | lib/Indexer/Adapter/Sqlite/DirtyFileListProvider.php:57-69 | draining (corrected, see Findings) yields every row in table order and leaves the table empty |
| `DirtyFiles.DrainThenDrainIsEmpty` | lib/Indexer/Adapter/Sqlite/DirtyFileListProvider.php:57-69 | a drain yields every logged path, and a second drain yields nothing |
| `DirtyFiles.DrainAsWrittenLosesRows` | lib/Indexer/Adapter/Sqlite/DirtyFileListProvider.php:59-68 | as written, with two logged paths only the first is yielded, and a second drain yields it again |
| `DirtyFiles.DrainAsWritten` | lib/Indexer/Adapter/Sqlite/DirtyFileListProvider.php:59-68 | as written, a drain yields at most the first row, yields something exactly when the table is not empty, and leaves the table unchanged |
| `DirtyFiles.MarkThenDrainYieldsEachOnce` | lib/Indexer/Adapter/Sqlite/DirtyFileListProvider.php:34-69 | a fresh log marked with any paths drains each marked path exactly once and is then empty |
| `DirtyFiles.EmptyDrain` | lib/Indexer/Adapter/Sqlite/DirtyFileListProvider.php:59-62 | an empty log yields nothing and stays empty, as written and corrected |
| `DirtyFiles.DirtyFileListProvider.constructor` | lib/Indexer/Adapter/Sqlite/DirtyFileListProvider.php:26-32 | an existing table is kept and a missing one is created empty; nothing is seen yet |
| `DirtyFiles.DirtyFileListProvider.MarkDirty` | lib/Indexer/Adapter/Sqlite/DirtyFileListProvider.php:34-47 | the state after the call is `Mark` of the state before |
| `DirtyFiles.DirtyFileListProvider.Paths` | lib/Indexer/Adapter/Sqlite/DirtyFileListProvider.php:57-69 | the paths yielded and the table afterwards are `Drain` of the old table; `seen` is not reset |
| `DirtyFiles.DirtyFileListProvider.ProvideFileList` | lib/Indexer/Adapter/Sqlite/DirtyFileListProvider.php:49-52 | the file list is the drained paths |

## Left out

- I/O:
  - Logging (`LoggerInterface`) becomes a `warnings` sequence in FileRepository and is left out elsewhere.
  - `mkdir` and `file_put_contents` are taken to succeed.
  - Filesystem and SQLite concurrency, transactions and locking are not modelled.
- External values:
  - md5, the record serializer and the reference enhancer are opaque functions given as parameters.
  - `time()` is the `now` parameter.
- Generators: `search`, `referencesTo` and `paths` return each generator's full output as a sequence, as if it were consumed to the end. Laziness and interleaving with writes are not modelled.
- SqliteSearch.SqliteSearchIndex.Search: SQL text is not evaluated.
  - The `WHERE` verdict on a row is the `admits` parameter.
  - Neither GLOB pattern is analysed. The second `ShortNameBeginsWith` pattern ends in a backslash, so it matches only identifiers that end in one. `ExactShortName` compares the whole identifier, not its short name.
  - The model follows this code. It does not follow the narrower description that a short-name search finds global names.
  - Rows are visited in an unspecified order, so the contract fixes which records are yielded, not their order.
- SqliteSearch.SqliteSearchIndex.Search: `Criteria::isSatisfiedBy` is the `sat` parameter. Its per-criterion logic is not part of this model.
- Records.CreateRecord: `RecordFactory::create`, `MemberRecord::isIdentifier`/`fromIdentifier`, `RecordReferences::to` and the search indexes are not part of this model. They are modelled by the behaviour their callers rely on:
  - a record type maps to a record class;
  - `type#name` is split at the first `#`;
  - references are kept by their record type and identifier;
  - `Index::get` of an absent record returns the prototype.
- MemberQueries: a `MemberRecordType` outside method/property/constant and records other than the five classes (`ClassRecord` is reduced to fqn, type and flags) are not modelled.
- DirtyFiles.DirtyFileListProvider.Paths: line 59 calls `queryArrayPrepared` without its required `$params` argument (SqliteHelper.php:19-22), which throws `ArgumentCountError` in PHP 8. The as-written model starts after that call, as if the argument were an empty array.
- BufferedRepositories.BufferedRepository.Put and SqliteSearch.SqliteSearchIndex.Write: records are captured by value at `put`/`write`. PHP keeps a reference to the object (BufferedRepository.php:30, SqliteSearchIndex.php:111), reads `recordType()`/`type()`/`flags()` only when the flush runs (SqliteSearchIndex.php:141-145), and `get` hands back the same object (BufferedRepository.php:43). So a record changed in place after the call and before the flush (for example by `addDefinition`) is persisted with its later state in PHP and its earlier state in the model, and aliasing between the caller's object and the buffered one is not modelled.
- `SqliteSearchIndex::$dirty` (line 42) is never read, so it is not modelled.
- PHP integer overflow is not modelled. PHP ints are 64-bit, and Dafny ints are unbounded. This affects FileRepository timestamps, flags, and the counters of BufferedRepository and SqliteSearchIndex.
- SerializedFileRepository.FileRepository.constructor: the `(int)` cast of the timestamp file (FileRepository.php:128) is modelled for integer text, an optional sign and leading digits after whitespace, which is what `putTimestamp` writes. PHP 8 reads a numeric string with a fraction or an exponent as a float first (`(int)"1e3"` is 1000), and that float path is not modelled: the model reads `"1e3"` as 1.
- SqliteSearch.SqliteSearchIndex.Flush: the `Assert::object` failure when the INSERT cannot be prepared (SqliteSearchIndex.php:138) is not modelled; the flush always succeeds.
- SqliteSearch.SqliteSearchIndex.Remove: the `Assert::object` failure when the DELETE cannot be prepared (SqliteSearchIndex.php:124) is not modelled; the removal always succeeds.
- SerializedFileRepository.FileRepository.Reset: `Filesystem::removeDir` is modelled as deleting every path under the root. Directories are implicit in the model.

## Findings

| source | as written | input that shows it | evidently intended | confidence | as-written member | corrected member |
|---|---|---|---|---|---|---|
| lib/Indexer/Adapter/Sqlite/DirtyFileListProvider.php:59-66 | the SELECT result is fetched once (SqliteHelper.php:28 returns one `fetchArray` row), and the `foreach` walks that row's single column, yielding `$result['file_path']` once | a log holding `a.php` and `b.php` yields only `a.php` | every logged path is yielded | not executed | `DirtyFiles.DrainAsWrittenLosesRows` | `DirtyFiles.DirtyFileListProvider.Paths` |
| lib/Indexer/Adapter/Sqlite/DirtyFileListProvider.php:68 | `TRUNCATE TABLE` is not SQLite syntax, so `exec` fails and the log is not cleared | after draining `a.php` and `b.php`, the next drain yields `a.php` again | the log is emptied after a drain (`DELETE FROM dirty_files`) | not executed | `DirtyFiles.DrainAsWrittenLosesRows` | `DirtyFiles.DrainThenDrainIsEmpty` |
