/** db.py: `WordDatabase`, the local word store. The object holds the two
    tables in place; every method is proved against the function of store.dfy
    that specifies it, and the lemmas there carry what the store promises.
    A SQLite failure inside a method rolls its transaction back, so callers
    model a failing store call by not making it. */
module Database {
  import opened Wrappers
  import opened Text
  import opened Words
  import opened Anki
  import opened Store

  class WordDatabase {
    var words: map<string, Row>
    var ankiWords: map<int, SyncRecord>
    var nextId: int
    var wordColumns: seq<string>
    var ankiColumns: seq<string>

    /** The tables as a value. */
    function State(): Tables
      reads this
    {
      Tables(words, ankiWords, nextId, wordColumns, ankiColumns)
    }

    predicate Valid()
      reads this
    {
      Store.Valid(State())
    }

    /** `WordDatabase(db_path)`: opens the file, whose contents are `image`
        (None for a new file), creates each table the file lacks with its
        full schema (so a new file gets both), and runs the three
        migrations in order. */
    constructor Open(image: Option<Tables>)
      requires image.Some? ==> Store.Valid(image.value)
      ensures Valid()
      ensures State() == Migrate(CreateTables(if image.Some? then image.value else EmptyTables))
    {
      var t := CreateTables(if image.Some? then image.value else EmptyTables);
      words, ankiWords, nextId := t.words, t.ankiWords, t.nextId;
      wordColumns, ankiColumns := t.wordColumns, t.ankiColumns;
      new;
      MigrateLegacyAnkiData();
      MigrateAddAnkiStatsColumns();
      MigrateAddLevelColumn();
    }

    /** `_migrate_legacy_anki_data`: when the old columns exist, copies every
        legacy synced row into `anki_words` unless its word has a record. */
    method MigrateLegacyAnkiData()
      requires Valid()
      modifies this
      ensures Valid()
      ensures State() == MigrateLegacy(old(State()))
    {
      var t := State();
      if "synced_to_anki" in wordColumns && "anki_note_id" in wordColumns {
        ankiWords := ankiWords + LegacyRecords(t);
      }
      assert State() == MigrateLegacy(t);
    }

    /** `_migrate_add_anki_stats_columns`: reads the existing columns once,
        then adds each statistics column that is not among them, in order. */
    method MigrateAddAnkiStatsColumns()
      requires Valid()
      modifies this
      ensures Valid()
      ensures State() == AddStatsColumns(old(State()))
    {
      var existing := ankiColumns;
      for i := 0 to |StatsColumns|
        invariant ankiColumns == existing + MissingColumns(existing, StatsColumns[..i])
        invariant words == old(words) && ankiWords == old(ankiWords) && nextId == old(nextId)
        invariant wordColumns == old(wordColumns)
      {
        MissingColumnsStep(existing, StatsColumns, i);
        if StatsColumns[i] !in existing {
          ankiColumns := ankiColumns + [StatsColumns[i]];
        }
      }
      assert StatsColumns[..|StatsColumns|] == StatsColumns;
    }

    /** `_migrate_add_level_column`: adds `level` with default '' if missing. */
    method MigrateAddLevelColumn()
      requires Valid()
      modifies this
      ensures Valid()
      ensures State() == AddLevelColumn(old(State()))
    {
      AddLevelColumnEffect(State());
      if "level" !in wordColumns {
        wordColumns := wordColumns + ["level"];
        words := map d | d in words :: words[d].(record := words[d].record.(level := ""));
      }
    }

    /** `save_word(word)`: updates the row with the same `dutch` text and
        returns its id, or inserts a row under a fresh id and returns that. */
    method SaveWord(w: Word, now: Timestamp) returns (id: int)
      requires Valid()
      modifies this
      ensures Valid()
      ensures (State(), id) == SaveWordSpec(old(State()), w, now)
    {
      SaveIsUpsert(State(), w, now);
      if w.dutch in words {
        var existing := words[w.dutch];
        words := words[w.dutch := existing.(record := WordToRecord(w), updatedAt := now)];
        id := existing.id;
      } else {
        id := nextId;
        words := words[w.dutch := Row(id, WordToRecord(w), now, now, None, None)];
        nextId := nextId + 1;
      }
    }

    /** `get_word(dutch)`: the stored word with exactly that text, if any. */
    method GetWord(dutch: string) returns (r: Option<Word>)
      requires Valid()
      ensures r == WordOf(State(), dutch)
      ensures r.Some? <==> dutch in words
      ensures r.Some? ==> r.value.dutch == dutch && WordToRecord(r.value) == words[dutch].record
    {
      if dutch in words {
        RecordRoundTrip(RecordToWord(words[dutch].record), words[dutch].record);
        r := Some(RecordToWord(words[dutch].record));
      } else {
        r := None;
      }
    }

    /** `get_all_words()`: every stored word, each under its own text. */
    method GetAllWords() returns (r: set<Word>)
      requires Valid()
      ensures r == AllWords(State())
      ensures forall w :: w in r <==> WordOf(State(), w.dutch) == Some(w)
    {
      r := set d | d in words :: RecordToWord(words[d].record);
      forall w: Word | WordOf(State(), w.dutch) == Some(w) ensures w in r {
        assert RecordToWord(words[w.dutch].record) == w;
      }
    }

    /** `get_unsynced_words()`: the stored words with no sync record or one
        whose `synced_at` is NULL. */
    method GetUnsyncedWords() returns (r: set<Word>)
      requires Valid()
      ensures r == UnsyncedWords(State())
      ensures forall w :: w in r <==> WordOf(State(), w.dutch) == Some(w) && w.dutch !in SyncedKeys(State())
    {
      r := set d | d in UnsyncedKeys(State()) :: RecordToWord(words[d].record);
      forall w: Word ensures w in r <==> WordOf(State(), w.dutch) == Some(w) && w.dutch !in SyncedKeys(State()) {
        UnsyncedWordsAreComplement(State(), w);
      }
    }

    /** `mark_synced(dutch, anki_note_id, deck_name)`: the insert-or-increment
        upsert on the word's sync record; nothing for an unknown word. */
    method MarkSynced(dutch: string, note: Option<NoteRef>, deck: string, now: Timestamp)
      requires Valid()
      modifies this
      ensures Valid()
      ensures State() == MarkSyncedSpec(old(State()), dutch, note, deck, now)
    {
      MarkSyncedEffect(State(), dutch, note, deck, now);
      if dutch !in words {
        return;
      }
      var wordId := words[dutch].id;
      var prev := if wordId in ankiWords then Some(ankiWords[wordId]) else None;
      ankiWords := ankiWords[wordId := MarkRecord(prev, note, deck, now)];
    }

    /** `mark_multiple_synced(words, anki_note_ids, deck_name)`: one upsert
        per pair of `zip(words, ids)`, all with the same timestamp. */
    method MarkMultipleSynced(ds: seq<string>, ids: Option<seq<Option<int>>>, deck: string, now: Timestamp)
      requires Valid()
      modifies this
      ensures Valid()
      ensures State() == MarkManySpec(old(State()), ds, NoteIdsOrNone(ids, |ds|), deck, now)
    {
      var notes := NoteIdsOrNone(ids, |ds|);
      var n := if |ds| <= |notes| then |ds| else |notes|;
      for i := 0 to n
        invariant Valid()
        invariant MarkManySpec(State(), ds[i..], notes[i..], deck, now)
               == MarkManySpec(old(State()), ds, notes, deck, now)
      {
        assert ds[i..][1..] == ds[i + 1..] && notes[i..][1..] == notes[i + 1..];
        MarkSynced(ds[i], notes[i], deck, now);
      }
      assert ds[n..] == [] || notes[n..] == [];
    }

    /** `delete_word(dutch)`: removes the row; true iff there was one. */
    method DeleteWord(dutch: string) returns (deleted: bool)
      requires Valid()
      modifies this
      ensures Valid()
      ensures (State(), deleted) == DeleteSpec(old(State()), dutch)
    {
      DeleteEffect(State(), dutch);
      if dutch in words {
        words := words - {dutch};
        deleted := true;
      } else {
        deleted := false;
      }
    }

    /** `search_words(query)`: the stored words whose text, translation or
        either definition contains `query`. */
    method SearchWords(query: string) returns (r: set<Word>)
      requires Valid()
      ensures r == Search(State(), query)
      ensures forall w :: w in r ==> WordOf(State(), w.dutch) == Some(w)
      ensures forall w :: w in r ==> Contains(w.dutch, query) || Contains(w.translation, query)
                                     || Contains(w.definitionNl, query) || Contains(w.definitionEn, query)
      ensures forall d :: d in words && Matches(words[d].record, query) ==> WordOf(State(), d).value in r
      ensures query == "" ==> r == AllWords(State())
    {
      r := set d | d in words && Matches(words[d].record, query) :: RecordToWord(words[d].record);
      SearchWithinStore(State(), query);
    }

    /** `get_stats()`: the three counts, which always add up. */
    method GetStats() returns (s: Stats)
      requires Valid()
      ensures s == StatsOf(State())
      ensures s.syncedToAnki + s.unsynced == s.totalWords == |words|
    {
      StatsPartition(State());
      s := Stats(|words|, |SyncedKeys(State())|, |UnsyncedKeys(State())|);
    }

    /** `get_sync_info(dutch)`: the word's sync record, if it has one. */
    method GetSyncInfo(dutch: string) returns (r: Option<SyncRecord>)
      requires Valid()
      ensures r == RecordOf(State(), dutch)
      ensures r.Some? ==> dutch in words && r.value == ankiWords[words[dutch].id]
    {
      if dutch in words && words[dutch].id in ankiWords {
        r := Some(ankiWords[words[dutch].id]);
      } else {
        r := None;
      }
    }

    /** `get_all_sync_info()`: the sync records with `synced_at` set, by word. */
    method GetAllSyncInfo() returns (r: map<string, SyncRecord>)
      requires Valid()
      ensures r == AllSyncInfo(State())
      ensures r.Keys == SyncedKeys(State())
      ensures forall d :: d in r ==> RecordOf(State(), d) == Some(r[d]) && r[d].syncedAt.Some?
    {
      r := map d | d in SyncedKeys(State()) :: RecordOf(State(), d).value;
    }
  }

  /** A new file opens empty, with both tables at their full schema. */
  lemma NewStoreIsEmpty()
    ensures Store.Valid(EmptyTables)
    ensures Migrate(EmptyTables) == EmptyTables
    ensures StatsOf(EmptyTables) == Stats(0, 0, 0)
  {
    assert "synced_to_anki" !in WordColumns;
    assert "level" in WordColumns;
    NothingMissing(AnkiColumns, StatsColumns);
    assert SyncedKeys(EmptyTables) == {} && UnsyncedKeys(EmptyTables) == {};
  }
}
