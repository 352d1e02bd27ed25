# anki_gpt word store and Anki sync, modelled in Dafny

anki_gpt keeps Dutch vocabulary entries, produced by a language model, in a
local SQLite store and mirrors them as notes in Anki through the
AnkiConnect add-on. This project models the core of that system and proves
what it promises:

- the word store (`WordDatabase`): the `words` and `anki_words` tables as
  maps, the upsert keyed on the exact `dutch` text, the insert-or-increment
  sync record, delete, the synced/unsynced partition behind the statistics,
  and the three schema migrations;
- the save-then-sync orchestration, both as free functions (word_sync.py)
  and as the `WordService` object, including the batch loops and their
  counters;
- the mapping between a word and an Anki note (`build_note`,
  `anki_to_word`) and the two bulk copy loops of backfill.py;
- `word_to_html`, `get_env_bool`, and the per-user model/effort settings
  with their cache.

Every state-changing operation is a method on a class holding the state it
changes (`Database.WordDatabase`, `Anki.AnkiConnect`, `Service.WordService`,
`UserSettings.SettingsStore`). Each method is proved against a pure function
on values (mostly in store.dfy), and the lemmas about those functions carry
the properties. The outside world is passed in as parameters:

- AnkiConnect's replies are `Call<Object>` values, either `Raised` or
  `Returned(reply)`. The endpoint records every request sent, including one
  whose transport then raised, so "no Anki call" means the request log is
  unchanged.
- Clock readings are `Timestamp` parameters.
- A failing store call is a flag in a per-step environment record
  (`SyncEnv`, `ImportEnv`, `ExportEnv`). A SQLite failure rolls its
  transaction back, so a failing call is modelled as one that is not made.
- `ENABLE_ANKI_SYNC` is a boolean parameter. `Config.EnableAnkiSync`
  computes it from an environment map.
- The settings file is a `SettingsFile` value: missing, unreadable, or a
  stored object.

The `Word` record carries the union of the fields word.py declares and the
two fields the store uses (`synonyms`, `level`). The code reads and writes
both everywhere else, so the model follows the code (see Findings).

`add_note` returns AnkiConnect's whole reply object, and the callers store
that as the note id. The store's note handle is therefore
`NoteRef = NoteId(int) | RawReply(reply)`, and "the push succeeded" means
the reply is truthy: a non-empty object. That includes a duplicate-note
error reply.

No connection enables SQLite foreign keys. So the declared `ON DELETE
CASCADE` never fires, and deleting a word leaves its `anki_words` row behind
with nothing pointing to it. The model keeps that row. What is proved is the
observable intent: after a delete, no sync record can be read for the word.
AUTOINCREMENT never reuses an id, so a re-created word starts a fresh
record.

## Model

| member | source | states |
|---|---|---|
| Store.RecordRoundTrip | db.py:132-166 | a word converted to its column values and back is the same word, list fields included; every record is the record of the word it reads back as |
| Store.SaveIsUpsert | db.py:168-198 | save is an upsert on the exact `dutch` text. An existing row keeps its id, which is returned, and the count stays. Otherwise a fresh id that no sync record uses is issued and the count grows by one. Either way the word reads back field for field, no other word or record changes, and the store stays valid |
| Store.MarkSyncedEffect | db.py:245-271 | unknown word: nothing changes. A word without a record gets one with count 1 and both timestamps set. A word with a record gets the new note id, deck and `last_updated_at`, count + 1, and keeps `synced_at`. No row and no other record changes |
| Store.NoteIdsOrNone | db.py:275-276 | a missing id list stands for None at every position, one per word; a given list is taken position by position |
| Store.MarkManyTruncates | db.py:282 | words past the shorter of the two lists are not marked (the `zip`) |
| Store.MarkManyEffect | db.py:273-303 | for distinct words, each listed stored word gets the single-word mark with its own handle, unknown words are skipped, every other record is unchanged |
| Store.DeleteEffect | db.py:305-311 | true iff the word was stored; afterwards neither the word nor a sync record for it can be read, it is neither synced nor unsynced, the count drops by one, and every other word keeps its row and record |
| Store.RecreatedWordStartsFresh | db.py:19 | a word deleted and saved again gets no record, so its next mark starts from count 1 instead of inheriting the record left behind |
| Store.StatsPartition | db.py:332-362 | synced and unsynced words are disjoint and together are all stored words, so `synced_to_anki + unsynced == total_words` |
| Store.UnsyncedWordsAreComplement | db.py:228-243 | a word is returned as unsynced iff it is stored and not synced |
| Store.AllWordsEmpty | db.py:217-226 | the list of all words is empty iff the store is |
| Store.SearchWithinStore | db.py:313-330 | search returns only stored words, and the empty query returns all of them |
| Store.MissingColumns | db.py:114-116 | the columns added are exactly the wanted ones that are missing |
| Store.AddStatsColumnsAdditive | db.py:97-118 | the statistics migration only appends missing columns, leaves all five present, changes nothing else, and a second run adds nothing |
| Store.LegacyRecords | db.py:80-91 | the copied records are keyed by issued ids that had no record |
| Store.MigrateLegacy | db.py:72-92 | the legacy copy keeps the store valid and leaves the words table unchanged |
| Store.MigrateLegacyEffect | db.py:80-91 | `INSERT OR IGNORE` never overwrites an existing record, and every legacy synced row ends with a record |
| Store.MigrateLegacyIdempotent | db.py:80-91 | running the legacy copy twice equals running it once |
| Store.AddLevelColumnEffect | db.py:120-130 | the level migration only appends `level`, keeps ids, records and legacy columns, gives every pre-existing row level '', and a second run changes nothing |
| Store.MigrateIdempotent | db.py:67-70 | opening a store a second time changes nothing, and the migrations lose no word and no sync record |
| Store.CreateTablesIdempotent | db.py:18-57 | `CREATE TABLE IF NOT EXISTS` changes no row, record or id and leaves both tables present; creating them twice is creating them once; a file with both tables keeps its schema; an empty file gets the full schema |
| Store.PreSyncFileGetsSyncTable | db.py:40-70 | a file with a words table and no `anki_words` table is opened with every `anki_words` column, `word_id` and `anki_note_id` included, and keeps its words |
| Database.WordDatabase.Open | db.py:9-70 | opening creates each missing table with its full schema, then gives the migrated image of the file, and a valid store |
| Database.WordDatabase.MigrateLegacyAnkiData | db.py:72-95 | the tables in place become the legacy-copy image of the old ones |
| Database.WordDatabase.MigrateAddAnkiStatsColumns | db.py:97-118 | the column loop appends exactly the missing statistics columns, in order |
| Database.WordDatabase.MigrateAddLevelColumn | db.py:120-130 | the tables become the level-migration image |
| Database.WordDatabase.SaveWord | db.py:168-198 | new tables and returned id are the upsert of the old tables |
| Database.WordDatabase.GetWord | db.py:204-215 | Some iff the word is stored, with the same `dutch` and the stored record |
| Database.WordDatabase.GetAllWords | db.py:217-226 | a word is returned iff it is stored under its own text |
| Database.WordDatabase.GetUnsyncedWords | db.py:228-243 | a word is returned iff it is stored and not synced |
| Database.WordDatabase.MarkSynced | db.py:245-271 | the tables become the mark image of the old ones |
| Database.WordDatabase.MarkMultipleSynced | db.py:273-303 | the loop over `zip(words, ids)` gives the fold of single marks |
| Database.WordDatabase.DeleteWord | db.py:305-311 | the tables and result are the delete image of the old tables |
| Database.WordDatabase.SearchWords | db.py:313-330 | exactly the stored words whose text, translation or a definition contains the query: every result is such a word, and every such word is a result; the empty query returns all words |
| Database.WordDatabase.GetStats | db.py:332-362 | the three counts, which add up to the number of stored words |
| Database.WordDatabase.GetSyncInfo | db.py:364-378 | the word's record, only when the word is stored and its id has one |
| Database.WordDatabase.GetAllSyncInfo | db.py:380-395 | exactly the synced words, each with its record |
| Database.NewStoreIsEmpty | db.py:13-65 | a new file is valid, already fully migrated, and has all counts 0 |
| Anki.BuildNoteShape | anki.py:10-31 | deck as given, note type "GPT", no duplicates, tag "gpt", exactly the eleven fields, no synonyms, each of the seven text fields copied from its `Word` field and the four list fields joined by line breaks |
| Anki.AddNoteKeepsReply | anki.py:57-65 | a reply is returned as is exactly when its error is text or absent, a duplicate included; a truthy non-text error raises |
| Anki.FirstRaise | anki.py:40 | the first word whose push raises: all earlier pushes returned |
| Anki.AddRequestsOneEach | anki.py:40 | one `addNote` request per word, in order, each built for the default deck |
| Anki.AnkiConnect.AddNote | anki.py:42-65 | one request whose note is built for the default deck whatever deck is passed; the result is the raw reply, or a raise for a non-text error |
| Anki.AnkiConnect.AddNotes | anki.py:34-40 | one call per word in order, never a bulk request; a list as long as the input with each reply, unless a call raises, which ends it |
| Anki.AnkiConnect.DeleteNote | word_service.py:215 | one delete request; the result is the remote outcome |
| Anki.AnkiConnect.SyncAnki | anki.py:67-84 | one sync request; the reply is returned whatever it says |
| WordSync.SyncWordToAnki | word_sync.py:19-47 | sync disabled: None and no request. Enabled: exactly one request, and a raise becomes None |
| WordSync.SaveAndSyncEffect | word_sync.py:73-92 | a failed save changes nothing. Otherwise the word reads back as saved, others are untouched, and its record is written exactly when the push is truthy and the mark succeeds |
| WordSync.DuplicateCountsAsSynced | word_sync.py:85-87 | a duplicate-note reply is returned, is truthy, and, when the save and the mark succeed, the word's record is marked with that reply under the given deck |
| WordSync.SaveAndSyncWord | word_sync.py:50-92 | the save comes first and its failure is re-raised with no Anki call. The mark is under the default deck whatever deck is passed. Returns the save's row id and the push result |
| WordSync.CountsBounded | word_sync.py:112-125 | `total_synced <= total_saved <= len(words)`, and nothing counts as synced when sync is off |
| WordSync.SaveAndSyncAllKeepsSaved | word_sync.py:115-122 | one word's failure does not undo or stop the others: each saved word not overwritten later in the batch reads back as saved |
| WordSync.SaveAndSyncWords | word_sync.py:95-125 | the store and request log are the fold over the words, and the counters count the saves and truthy pushes |
| Service.WordService.constructor | word_service.py:34-44 | the service keeps the store, endpoint, deck and sync setting it is given |
| Service.WordService.SyncWordToAnki | word_service.py:48-70 | as the free function, with this service's setting: one `addNote` request for the word's note when sync is enabled, none otherwise |
| Service.WordService.SaveAndSyncWord | word_service.py:72-101 | save first and re-raise its failure; mark under the service's own deck only on a truthy push; swallow a failed mark; return row id and push result |
| Service.WordService.Create | word_service.py:105-124 | the save-and-sync effect; `synced` is "push result is not None" |
| Service.WordService.Update | word_service.py:146-163 | the same effect as create, so a missing word is created |
| Service.ReportedSyncedButNotMarked | word_service.py:120-124 | an empty reply is reported as synced yet leaves the word's record as it was |
| Service.WordService.Get | word_service.py:165-180 | the stored word under that text, if any |
| Service.ServiceImportFails | word_service.py:20 | as written, `from anki import delete_note, add_note` fails on `delete_note`, which anki.py does not define |
| Service.ServiceImportResolves | word_service.py:20 | once anki.py defines `delete_note`, both imported names resolve |
| Service.NoteUnreadableAfterDelete | word_service.py:199-204 | the note handle must be read before the delete, because none is visible afterwards |
| Service.WordService.Delete | word_service.py:182-221 | absent word: (false, false) and no Anki call. Otherwise the word is deleted locally, and the remote delete of the handle read beforehand happens iff the flag is set, the handle is truthy and sync is on; no attempt gives None |
| Service.WordService.Exists | word_service.py:223-233 | true iff `get` finds the word |
| Service.WordService.CreateMany | word_service.py:237-260 | the batch fold with per-word failures skipped, and `0 <= total_synced <= total_saved <= len(words)` |
| Service.WordService.GetAll | word_service.py:264-273 | all stored words |
| Service.WordService.Search | word_service.py:275-287 | the store's search result, which holds only stored words |
| Service.WordService.GetUnsynced | word_service.py:289-298 | the unsynced words |
| Service.WordService.GetStats | word_service.py:302-312 | the store's counts, which add up |
| Service.WordService.Count | word_service.py:314-321 | the stats total, which is the number of stored words |
| Service.WordService.MarkSynced | word_service.py:325-337 | the store's mark under the default deck, not the service's |
| Backfill.GetFieldValueForms | backfill.py:30-34 | a plain or wrapped field gives the same text; a missing field or missing "value" reads as "" |
| Backfill.CleanLines | backfill.py:43 | no element is empty or has whitespace at either end, and each is the stripped form of some input line |
| Backfill.ParseList | backfill.py:43-48 | list fields have no empty, unstripped or multi-line element |
| Backfill.AnkiToWord | backfill.py:21-52 | a word iff every field read is text (otherwise the error is caught and None returned); its `dutch` is the "Word" field and its level is '' |
| Backfill.ParseListJoin | backfill.py:43 | a clean list is recovered from its line-joined form |
| Backfill.AnkiRoundTrip | backfill.py:36-49 | a word sent as a note and read back is recovered, except synonyms (empty) and level (''), when its list elements are non-empty, stripped and single-line |
| Backfill.ReportedFields | anki.py:14-26 | each field of the note as reported back reads as the text sent |
| Backfill.ImportEffect | backfill.py:96-105 | a converted note is saved and then marked with its own note id under the default deck; a failed save skips it; a failed mark leaves it saved and unmarked; other words are untouched |
| Backfill.ImportedCountBounded | backfill.py:94-108 | `success_count <= len(notes)` |
| Backfill.ImportAllValid | backfill.py:95-106 | importing any list of notes keeps the store valid |
| Backfill.ImportNote | backfill.py:96-105 | one note: the store becomes the one-note import image, and the result is true iff the note converts and both the save and the mark succeed |
| Backfill.ExportAnkiToDb | backfill.py:55-112 | a connection error or no note ids gives (0, 0) and no change; a null note list raises; otherwise the notes are imported in order and the result is (imported, notes) with imported <= notes |
| Backfill.ExportWord | backfill.py:131-135 | one word: exactly one request, the note rebuilt from its stored record; a truthy reply is marked under the default deck; the step fails iff the push or the mark raises |
| Backfill.ExportWords | backfill.py:129-135 | success iff no word's push or mark raises. Then the requests sent are the stored words' notes, one per word in a visiting order that lists every stored word once, each word's record is marked iff its push succeeded, and the result is (pushed, total) |
| Backfill.ExportRequestsOneEach | backfill.py:130-131 | the export's i-th request is the `addNote` request for the i-th visited word's note, rebuilt from its stored record, for the default deck |
| Backfill.ExportDbToAnki | backfill.py:115-138 | an empty store gives (0, 0) with no request; otherwise the loop's result and effect (one note per stored word, in a visiting order that lists each word once), with `success <= total` |
| Config.GetEnvBoolMeaning | config.py:4-14 | true iff the lower-cased value is a true spelling, or is not a false spelling and the default is true; unset gives the default |
| Config.GetEnvBoolIgnoresCase | config.py:9 | upper- or lower-casing the value does not change the result |
| Config.EnableAnkiSyncUnlessFalse | config.py:17 | sync is off iff the variable is an explicit false spelling |
| Words.Zip | word.py:21 | pairs by position, as long as the shorter list |
| Words.WordToHtmlShape | word.py:20-38 | for single-line fields: exactly nine lines, the headword in bold first, collocations and related joined with ", ", the examples in italics last |
| Words.ExamplesPairedByPosition | word.py:21-24 | the examples part is the unseparated concatenation of "nl (en)" for the pairs by position, truncated to the shorter list |
| Words.FirstMissing | word.py:3-14 | the first attribute read that the class does not declare: None iff all are declared |
| Words.DeclaredWordCannotBeStored | db.py:142 | with the fields word.py declares, storing any word fails on `synonyms` |
| Words.RecordWordCanBeStored | db.py:132-148 | with `synonyms` and `level` added, every attribute the store reads exists |
| UserSettings.FromDict | user_settings.py:24-34 | the result is always allowed; each field is the entry's value when that is an allowed string, else the default |
| UserSettings.ToDict | user_settings.py:36-40 | exactly the keys "model" and "effort" |
| UserSettings.FromDictToDict | user_settings.py:25-40 | an allowed configuration written and read back is unchanged |
| UserSettings.DisallowedNotReloaded | user_settings.py:25-40 | a configuration with a disallowed value does not survive being written and read back |
| UserSettings.Load | user_settings.py:44-52 | a missing or unreadable file reads as {} |
| UserSettings.WithSettingEffect | user_settings.py:85-92 | the written setting is read back; the user's other keys and every other user's entry are unchanged |
| UserSettings.SetModelTakesEffect | user_settings.py:99-100 | after setting an allowed model, the user's validated config has that model and the old effort |
| UserSettings.SetEffortTakesEffect | user_settings.py:102-103 | after setting an allowed effort, the validated config has that effort and the old model |
| UserSettings.WriteAfterUnreadableDropsOthers | user_settings.py:85-92 | a write after a failed read leaves only the writing user's entry in the file |
| UserSettings.SettingsStore.constructor | user_settings.py:42 | an empty cache, which is coherent with any file |
| UserSettings.SettingsStore.LoadSettings | user_settings.py:44-52 | the file's settings; nothing else changes except the read count |
| UserSettings.SettingsStore.GetUserConfig | user_settings.py:58-66 | a hit returns the cached entry without reading the file; a miss reads, validates and caches. Over a coherent cache the answer is the file's validated entry and the cache stays coherent |
| UserSettings.SettingsStore.SetUserConfig | user_settings.py:68-72 | cache and file both get the config; coherence is kept for an allowed config, so a following get returns it |
| UserSettings.SettingsStore.GetUserSetting | user_settings.py:74-77 | the user's stored value for the key, else the default |
| UserSettings.SettingsStore.SetUserSetting | user_settings.py:79-97 | false with no change iff the key is model or effort and the value is not allowed. Otherwise only that user's key is written and that user's cache entry is dropped; the cache stays coherent |
| UserSettings.SettingsStore.SetUserModel | user_settings.py:99-100 | the setter for "model": true iff the model is allowed |
| UserSettings.SettingsStore.SetUserEffort | user_settings.py:102-103 | the setter for "effort": true iff the effort is allowed |

## Left out

- Row order: `get_all_words`, `get_unsynced_words`, `search_words` and `get_all_sync_info` sort by a timestamp. The model returns sets or maps.
- `save_words`: a list comprehension over `save_word`, whose effect is covered by the single-word upsert.
- `WordService.create_from_dict`: it only builds a `Word` from keyword arguments, which is pydantic validation.
- `WordService.__repr__` and the context-manager methods: they only log or return `self`.
- Opening the default store: `WordService.__init__` when no store is given, both backfill functions, and `save_and_sync_word` and `save_and_sync_words` (word_sync.py:71, word_sync.py:110) when no store is given, create a `WordDatabase()` on `words.db`. The model always passes the store in.
- SQLite binding: SQLite cannot bind a dict as a parameter. So every mark after a push, which passes the raw reply as `anki_note_id`, would raise in SQLite. `save_and_sync_word`, `save_and_sync_words` and `WordService` swallow that failure, while `export_db_to_anki` calls `mark_synced` outside any `try` (backfill.py:131-133) and so propagates it; the model captures the latter as `ExportFails` with a failed mark. The model stores the reply as a `RawReply` handle and leaves this failure to the mark-failure flag.
- The HTTP and JSON layers: request payloads, `requests.post`, `.json()` and `json.dumps`/`json.loads`. Replies are parameters, and list columns are taken to round-trip.
- Note ids: `notesInfo`'s `noteId` is taken to be an integer or absent.
- The settings file: its top level is taken to be an object of objects. A JSON list or number there, or a non-object user entry, is not modelled.
- `save_user_settings`: a failing write is not modelled; writes always succeed.
- Order of export: `export_db_to_anki` visits the words in creation order. The model visits them in any order, so on failure the request log and the store hold some prefix of the export, which the contract does not describe.
- Batch timestamps: `mark_multiple_synced` uses one timestamp for the whole batch. The model takes one `now` parameter, which is the same thing. The other loops take one timestamp per step.
- Store failures inside `delete_word`, `get_word` and the other reads are not modelled. `WordService.delete` and the reads assume they succeed.
- `delete_note` is imported by word_service.py (word_service.py:20) but not defined in anki.py, so importing word_service.py raises ImportError and `WordService` as written can never be loaded (see Findings). The model gives `AnkiConnect` a `DeleteNote`, an external call that reports a boolean, and models the service as if the import resolved.
- `LIKE` semantics in `search_words` (wildcards, ASCII case folding): modelled as a plain substring test.
- `Config.GetEnvBoolIgnoresCase`: the case invariance is a fact about ASCII letters only. Python's `str.upper` maps some non-ASCII letters onto ASCII ones (`'ſ'`, U+017F, becomes `'S'`), so `"yeſ"` gives the default while `"yeſ".upper()` gives true; the model's case mapping covers ASCII letters only.
- bot.py, web/viewer.py, chatgpt.py and cli.py: these are the Telegram, web and language-model front ends, not part of this model.

## Findings

| source | as written | input that shows it | evidently intended | confidence | as-written member | corrected member |
|---|---|---|---|---|---|---|
| word.py:3-14 | `Word` declares eleven fields, with neither `synonyms` nor `level`, yet `_word_to_dict` reads `word.synonyms` and `word.level` (db.py:142,147) | any word, e.g. `Word(dutch="huis", …)` passed to `save_word`: AttributeError on `synonyms`, so no word can ever be saved | `Word` declares `synonyms: list[str]` and `level: str = ""` (a default, since `anki_to_word` and the web viewer build a `Word` with no level), as the store's schema, `_dict_to_word` and `anki_to_word` assume | not executed; high | Words.DeclaredWordCannotBeStored | Words.RecordWordCanBeStored |
| word_service.py:20 | `from anki import delete_note, add_note`, but anki.py defines no `delete_note` | importing `word_service` at all: ImportError on `delete_note`, so `WordService` cannot be used | anki.py defines `delete_note(note_id)` beside `add_note`, as `WordService.delete` (word_service.py:199-215) expects | not executed; high | Service.ServiceImportFails | Service.ServiceImportResolves |
