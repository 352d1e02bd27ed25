/** The contents of the SQLite file behind db.py, as values: the `words`
    table keyed by its unique `dutch` column, the `anki_words` table keyed by
    its unique `word_id` column, the AUTOINCREMENT counter and the column
    lists of both tables. Every operation of the store is specified here as
    a function from the old tables to the new ones; the class in db.dfy
    performs the same steps in place. */
module Store {
  import opened Wrappers
  import opened Text
  import opened Words
  import opened Anki

  /** `datetime.now().isoformat()` and SQLite's CURRENT_TIMESTAMP, as an
      abstract instant supplied by the caller. */
  type Timestamp = nat

  /** A list column: `json.dumps` of a list of strings. Encoding and
      decoding are taken to be inverse. */
  datatype JsonList = JsonList(items: seq<string>)

  /** The column values `_word_to_dict` produces for a word. */
  datatype WordRecord = WordRecord(
    dutch: string,
    translation: string,
    definitionNl: string,
    definitionEn: string,
    pronunciation: string,
    grammar: string,
    collocations: JsonList,
    synonyms: JsonList,
    examplesNl: JsonList,
    examplesEn: JsonList,
    etymology: string,
    related: JsonList,
    level: string)

  /** `_word_to_dict(word)`. */
  function WordToRecord(w: Word): WordRecord
  {
    WordRecord(w.dutch, w.translation, w.definitionNl, w.definitionEn, w.pronunciation,
               w.grammar, JsonList(w.collocations), JsonList(w.synonyms),
               JsonList(w.examplesNl), JsonList(w.examplesEn), w.etymology,
               JsonList(w.related), w.level)
  }

  /** `_dict_to_word(row)`. */
  function RecordToWord(r: WordRecord): Word
  {
    Word(r.dutch, r.translation, r.definitionNl, r.definitionEn, r.pronunciation,
         r.grammar, r.collocations.items, r.synonyms.items, r.examplesNl.items,
         r.examplesEn.items, r.etymology, r.related.items, r.level)
  }

  /** Storing a word and reading it back loses no field, and every stored
      record is the record of the word it reads back as. */
  lemma RecordRoundTrip(w: Word, r: WordRecord)
    ensures RecordToWord(WordToRecord(w)) == w
    ensures WordToRecord(RecordToWord(r)) == r
  {
  }

  /** One row of `words`. The two legacy columns exist only in stores
      created before the `anki_words` table; elsewhere they read as NULL. */
  datatype Row = Row(
    id: int,
    record: WordRecord,
    createdAt: Timestamp,
    updatedAt: Timestamp,
    legacySynced: Option<int>,
    legacyNoteId: Option<int>)

  /** Review statistics columns, never written by this code. */
  datatype Telemetry = Telemetry(
    reviews: Option<int>,
    lapses: Option<int>,
    easeFactor: Option<int>,
    interval: Option<int>,
    due: Option<int>)

  const NoTelemetry := Telemetry(None, None, None, None, None)

  /** One row of `anki_words`, without its `word_id` key. */
  datatype SyncRecord = SyncRecord(
    noteId: Option<NoteRef>,
    deckName: string,
    syncedAt: Option<Timestamp>,
    lastUpdatedAt: Option<Timestamp>,
    syncCount: int,
    telemetry: Telemetry)

  /** Both tables. `ankiWords` is keyed by `word_id`. `nextId` is the id the
      next inserted word receives: AUTOINCREMENT never hands out an id
      twice, even after a delete. */
  datatype Tables = Tables(
    words: map<string, Row>,
    ankiWords: map<int, SyncRecord>,
    nextId: int,
    wordColumns: seq<string>,
    ankiColumns: seq<string>)

  const WordColumns: seq<string> := [
    "id", "dutch", "translation", "definition_nl", "definition_en", "pronunciation",
    "grammar", "collocations", "synonyms", "examples_nl", "examples_en", "etymology",
    "related", "level", "created_at", "updated_at"]

  const StatsColumns: seq<string> := ["reviews", "lapses", "ease_factor", "interval", "due"]

  const AnkiColumns: seq<string> := [
    "id", "word_id", "anki_note_id", "deck_name", "synced_at", "last_updated_at",
    "sync_count"] + StatsColumns

  /** The tables `init_database` creates in a new file. */
  const EmptyTables := Tables(map[], map[], 1, WordColumns, AnkiColumns)

  /** `CREATE TABLE IF NOT EXISTS` for both tables: a table the file lacks
      (no columns) is created empty with its full schema; a table the file
      has is left as it is. */
  function CreateTables(t: Tables): Tables
  {
    t.(wordColumns := if t.wordColumns == [] then WordColumns else t.wordColumns,
       ankiColumns := if t.ankiColumns == [] then AnkiColumns else t.ankiColumns)
  }

  /** Creating the tables touches no row, record or id; it is idempotent,
      a file holding both tables keeps its own schema, and a file holding
      neither gets the schema of a new store. */
  lemma CreateTablesIdempotent(t: Tables)
    ensures var r := CreateTables(t);
      && r.words == t.words && r.ankiWords == t.ankiWords && r.nextId == t.nextId
      && (Valid(t) ==> Valid(r))
      && r.wordColumns != [] && r.ankiColumns != []
    ensures CreateTables(CreateTables(t)) == CreateTables(t)
    ensures t.wordColumns != [] && t.ankiColumns != [] ==> CreateTables(t) == t
    ensures CreateTables(Tables(map[], map[], 1, [], [])) == EmptyTables
  {
  }

  /** What the schema guarantees: a row is filed under its own `dutch` text,
      row ids are distinct and below the AUTOINCREMENT counter, and every
      sync record belongs to an id that has been handed out. */
  predicate Valid(t: Tables)
  {
    && (forall d :: d in t.words ==> t.words[d].record.dutch == d && t.words[d].id < t.nextId)
    && (forall d, e :: d in t.words && e in t.words && t.words[d].id == t.words[e].id ==> d == e)
    && (forall id :: id in t.ankiWords ==> id < t.nextId)
  }

  // ---------------------------------------------------------------- queries

  /** `get_word(dutch)`. */
  function WordOf(t: Tables, dutch: string): Option<Word>
  {
    if dutch in t.words then Some(RecordToWord(t.words[dutch].record)) else None
  }

  /** `get_sync_info(dutch)`: the sync record joined to the word's row. */
  function RecordOf(t: Tables, dutch: string): Option<SyncRecord>
  {
    if dutch in t.words && t.words[dutch].id in t.ankiWords
    then Some(t.ankiWords[t.words[dutch].id])
    else None
  }

  /** The words with a sync record whose `synced_at` is set. */
  function SyncedKeys(t: Tables): set<string>
  {
    set d | d in t.words && RecordOf(t, d).Some? && RecordOf(t, d).value.syncedAt.Some?
  }

  /** The words with no sync record, or one whose `synced_at` is NULL. */
  function UnsyncedKeys(t: Tables): set<string>
  {
    set d | d in t.words && (RecordOf(t, d).None? || RecordOf(t, d).value.syncedAt.None?)
  }

  /** The three counts of `get_stats`. */
  datatype Stats = Stats(totalWords: nat, syncedToAnki: nat, unsynced: nat)

  function StatsOf(t: Tables): Stats
  {
    Stats(|t.words|, |SyncedKeys(t)|, |UnsyncedKeys(t)|)
  }

  /** The synced and unsynced words split the store in two: each word is in
      exactly one of them, so the counts of `get_stats` add up to the total. */
  lemma StatsPartition(t: Tables)
    ensures SyncedKeys(t) !! UnsyncedKeys(t)
    ensures SyncedKeys(t) + UnsyncedKeys(t) == t.words.Keys
    ensures StatsOf(t).syncedToAnki + StatsOf(t).unsynced == StatsOf(t).totalWords
  {
    var s, u := SyncedKeys(t), UnsyncedKeys(t);
    assert s + u == t.words.Keys;
    assert |s + u| == |s| + |u|;
  }

  /** `get_all_words()`, without its order. */
  function AllWords(t: Tables): set<Word>
  {
    set d | d in t.words :: RecordToWord(t.words[d].record)
  }

  /** `get_all_words()` is empty exactly when the store is. */
  lemma AllWordsEmpty(t: Tables)
    ensures AllWords(t) == {} <==> t.words == map[]
  {
    if t.words != map[] {
      var d :| d in t.words;
      assert RecordToWord(t.words[d].record) in AllWords(t);
    }
  }

  /** `get_unsynced_words()`, without its order. */
  function UnsyncedWords(t: Tables): set<Word>
  {
    set d | d in UnsyncedKeys(t) :: RecordToWord(t.words[d].record)
  }

  /** `get_unsynced_words()` returns exactly the stored words that are not
      synced. */
  lemma UnsyncedWordsAreComplement(t: Tables, w: Word)
    requires Valid(t)
    ensures w in UnsyncedWords(t) <==> WordOf(t, w.dutch) == Some(w) && w.dutch !in SyncedKeys(t)
  {
    StatsPartition(t);
    if w in UnsyncedWords(t) {
      var d :| d in UnsyncedKeys(t) && RecordToWord(t.words[d].record) == w;
      assert d == w.dutch;
    }
  }

  /** `search_words(query)`: a plain substring test on four columns. */
  function Search(t: Tables, query: string): set<Word>
  {
    set d | d in t.words && Matches(t.words[d].record, query) :: RecordToWord(t.words[d].record)
  }

  predicate Matches(r: WordRecord, query: string)
  {
    Contains(r.dutch, query) || Contains(r.translation, query)
    || Contains(r.definitionNl, query) || Contains(r.definitionEn, query)
  }

  /** Search returns stored words only, and an empty query returns them all. */
  lemma SearchWithinStore(t: Tables, query: string)
    ensures Search(t, query) <= AllWords(t)
    ensures Search(t, "") == AllWords(t)
  {
    forall d | d in t.words ensures Matches(t.words[d].record, "") {
      assert "" <= t.words[d].record.dutch;
    }
  }

  /** `get_all_sync_info()`, keyed by `dutch`, without its order. */
  function AllSyncInfo(t: Tables): map<string, SyncRecord>
  {
    map d | d in SyncedKeys(t) :: RecordOf(t, d).value
  }

  // -------------------------------------------------------------- mutations

  /** `save_word(word)`: the new tables and the row id returned. */
  function SaveWordSpec(t: Tables, w: Word, now: Timestamp): (Tables, int)
  {
    if w.dutch in t.words then
      var row := t.words[w.dutch];
      (t.(words := t.words[w.dutch := row.(record := WordToRecord(w), updatedAt := now)]), row.id)
    else
      (t.(words := t.words[w.dutch := Row(t.nextId, WordToRecord(w), now, now, None, None)],
          nextId := t.nextId + 1),
       t.nextId)
  }

  /** `save_word` is an upsert on the exact `dutch` text: an existing row
      keeps its id and the word count stays; otherwise a fresh id is issued,
      one that no sync record refers to, and the count grows by one. Either
      way the word reads back field for field, no other word changes and
      the sync table is untouched. */
  lemma SaveIsUpsert(t: Tables, w: Word, now: Timestamp)
    requires Valid(t)
    ensures var (t', id) := SaveWordSpec(t, w, now);
      && Valid(t')
      && WordOf(t', w.dutch) == Some(w)
      && (forall d :: d != w.dutch ==> WordOf(t', d) == WordOf(t, d) && RecordOf(t', d) == RecordOf(t, d))
      && t'.ankiWords == t.ankiWords
      && (w.dutch in t.words ==> id == t.words[w.dutch].id && |t'.words| == |t.words|
                                 && RecordOf(t', w.dutch) == RecordOf(t, w.dutch))
      && (w.dutch !in t.words ==> id !in t.ankiWords && |t'.words| == |t.words| + 1
                                  && RecordOf(t', w.dutch) == None)
  {
    RecordRoundTrip(w, WordToRecord(w));
    SaveKeepsOthers(t, w, now);
    if w.dutch in t.words {
      SaveExisting(t, w, now);
    } else {
      SaveNew(t, w, now);
    }
  }

  /** Saving touches only the saved word's row and keeps the store valid. */
  lemma SaveKeepsOthers(t: Tables, w: Word, now: Timestamp)
    requires Valid(t)
    ensures var t' := SaveWordSpec(t, w, now).0;
      && Valid(t') && t'.ankiWords == t.ankiWords
      && t'.words[w.dutch].record == WordToRecord(w)
      && (forall d :: d != w.dutch ==> WordOf(t', d) == WordOf(t, d) && RecordOf(t', d) == RecordOf(t, d))
  {
    var t' := SaveWordSpec(t, w, now).0;
    forall d | d != w.dutch ensures RecordOf(t', d) == RecordOf(t, d) {
      if d in t.words {
        assert t'.words[d] == t.words[d];
      }
    }
  }

  lemma SaveExisting(t: Tables, w: Word, now: Timestamp)
    requires Valid(t) && w.dutch in t.words
    ensures var (t', id) := SaveWordSpec(t, w, now);
      id == t.words[w.dutch].id && |t'.words| == |t.words| && RecordOf(t', w.dutch) == RecordOf(t, w.dutch)
  {
    var (t', id) := SaveWordSpec(t, w, now);
    assert t'.words.Keys == t.words.Keys;
  }

  lemma SaveNew(t: Tables, w: Word, now: Timestamp)
    requires Valid(t) && w.dutch !in t.words
    ensures var (t', id) := SaveWordSpec(t, w, now);
      id !in t.ankiWords && |t'.words| == |t.words| + 1 && RecordOf(t', w.dutch) == None
  {
    var (t', id) := SaveWordSpec(t, w, now);
    assert t'.words.Keys == t.words.Keys + {w.dutch};
  }

  /** The `anki_words` row after one `mark_synced` upsert. A new row starts
      with `sync_count` 1 and both timestamps set; an existing row takes the
      new note id, deck and `last_updated_at`, counts one more sync and
      keeps its `synced_at`. */
  function MarkRecord(prev: Option<SyncRecord>, note: Option<NoteRef>, deck: string, now: Timestamp): SyncRecord
  {
    match prev
    case None => SyncRecord(note, deck, Some(now), Some(now), 1, NoTelemetry)
    case Some(r) => r.(noteId := note, deckName := deck, lastUpdatedAt := Some(now), syncCount := r.syncCount + 1)
  }

  /** `mark_synced(dutch, note, deck)`. */
  function MarkSyncedSpec(t: Tables, dutch: string, note: Option<NoteRef>, deck: string, now: Timestamp): Tables
  {
    if dutch !in t.words then t
    else
      var id := t.words[dutch].id;
      t.(ankiWords := t.ankiWords[id := MarkRecord(RecordOf(t, dutch), note, deck, now)])
  }

  /** `mark_synced` on an unknown word changes nothing. On a known word it
      creates the sync record (count 1, `synced_at` set) or updates it
      (count plus one, `synced_at` kept); the word is synced afterwards
      unless its earlier record had no `synced_at`; no word's row and no
      other word's record changes. */
  lemma MarkSyncedEffect(t: Tables, dutch: string, note: Option<NoteRef>, deck: string, now: Timestamp)
    requires Valid(t)
    ensures var t' := MarkSyncedSpec(t, dutch, note, deck, now);
      && Valid(t')
      && t'.words == t.words
      && (dutch !in t.words ==> t' == t)
      && (dutch in t.words && RecordOf(t, dutch).None? ==>
            RecordOf(t', dutch) == Some(SyncRecord(note, deck, Some(now), Some(now), 1, NoTelemetry)))
      && (dutch in t.words && RecordOf(t, dutch).Some? ==>
            var r := RecordOf(t, dutch).value;
            RecordOf(t', dutch) == Some(r.(noteId := note, deckName := deck,
                                           lastUpdatedAt := Some(now), syncCount := r.syncCount + 1)))
      && (dutch in SyncedKeys(t') <==>
            dutch in t.words && (RecordOf(t, dutch).None? || RecordOf(t, dutch).value.syncedAt.Some?))
      && (forall d :: d != dutch ==> RecordOf(t', d) == RecordOf(t, d))
  {
    if dutch in t.words {
      var t' := MarkSyncedSpec(t, dutch, note, deck, now);
      forall d | d != dutch && d in t.words ensures t.words[d].id != t.words[dutch].id {
      }
      assert dutch in SyncedKeys(t') <==> RecordOf(t', dutch).value.syncedAt.Some?;
    }
  }

  /** `mark_multiple_synced`'s note ids: a missing list stands for None at
      every position. */
  function NoteIdsOrNone(ids: Option<seq<Option<int>>>, n: nat): (r: seq<Option<NoteRef>>)
    ensures ids.None? ==> |r| == n && forall i :: 0 <= i < n ==> r[i] == None
    ensures ids.Some? ==> |r| == |ids.value|
    ensures ids.Some? ==> forall i :: 0 <= i < |r| ==>
              r[i] == (if ids.value[i].Some? then Some(NoteId(ids.value[i].value)) else None)
  {
    match ids
    case None => seq(n, _ => None)
    case Some(xs) => seq(|xs|, i requires 0 <= i < |xs| => if xs[i].Some? then Some(NoteId(xs[i].value)) else None)
  }

  /** `mark_multiple_synced(words, ids, deck)` on note handles already
      paired up: `mark_synced` for each pair of `zip(words, ids)` in turn. */
  function MarkManySpec(t: Tables, words: seq<string>, notes: seq<Option<NoteRef>>, deck: string, now: Timestamp): Tables
    decreases |words|
  {
    if words == [] || notes == [] then t
    else MarkManySpec(MarkSyncedSpec(t, words[0], notes[0], deck, now), words[1..], notes[1..], deck, now)
  }

  /** Words beyond the shorter of the two lists are not marked. */
  lemma {:induction false} MarkManyTruncates(t: Tables, words: seq<string>, notes: seq<Option<NoteRef>>, deck: string, now: Timestamp)
    ensures var m := if |words| <= |notes| then |words| else |notes|;
      MarkManySpec(t, words, notes, deck, now) == MarkManySpec(t, words[..m], notes[..m], deck, now)
    decreases |words|
  {
    var m := if |words| <= |notes| then |words| else |notes|;
    if words != [] && notes != [] {
      MarkManyTruncates(MarkSyncedSpec(t, words[0], notes[0], deck, now), words[1..], notes[1..], deck, now);
      assert words[..m][1..] == words[1..][..m - 1];
      assert notes[..m][1..] == notes[1..][..m - 1];
    }
  }

  /** For distinct words, marking a list gives each listed stored word the
      single-word `mark_synced` effect with its own note handle, skips the
      unknown ones and leaves every other record as it was. */
  lemma {:induction false} MarkManyEffect(t: Tables, words: seq<string>, notes: seq<Option<NoteRef>>, deck: string, now: Timestamp)
    requires Valid(t)
    requires forall i, j :: 0 <= i < j < |words| ==> words[i] != words[j]
    ensures var t' := MarkManySpec(t, words, notes, deck, now);
      && Valid(t') && t'.words == t.words
      && (forall i :: 0 <= i < |words| && i < |notes| && words[i] in t.words ==>
            RecordOf(t', words[i]) == Some(MarkRecord(RecordOf(t, words[i]), notes[i], deck, now)))
      && (forall d :: (forall i :: 0 <= i < |words| && i < |notes| ==> words[i] != d) ==>
            RecordOf(t', d) == RecordOf(t, d))
    decreases |words|
  {
    if words != [] && notes != [] {
      var t1 := MarkSyncedSpec(t, words[0], notes[0], deck, now);
      MarkSyncedEffect(t, words[0], notes[0], deck, now);
      MarkManyEffect(t1, words[1..], notes[1..], deck, now);
      var t' := MarkManySpec(t, words, notes, deck, now);
      forall i | 0 <= i < |words| && i < |notes| && words[i] in t.words
        ensures RecordOf(t', words[i]) == Some(MarkRecord(RecordOf(t, words[i]), notes[i], deck, now))
      {
        if i > 0 {
          assert words[1..][i - 1] == words[i];
          assert RecordOf(t1, words[i]) == RecordOf(t, words[i]);
        } else {
          assert forall k :: 0 <= k < |words[1..]| && k < |notes[1..]| ==> words[1..][k] != words[0];
        }
      }
      forall d | (forall i :: 0 <= i < |words| && i < |notes| ==> words[i] != d)
        ensures RecordOf(t', d) == RecordOf(t, d)
      {
        assert words[0] != d;
        forall k | 0 <= k < |words[1..]| && k < |notes[1..]| ensures words[1..][k] != d {
          assert words[1..][k] == words[k + 1];
        }
      }
    }
  }

  /** `delete_word(dutch)`: the row goes and the result says whether there
      was one. No connection enables SQLite's foreign keys, so the declared
      ON DELETE CASCADE does not fire: the word's sync record stays in
      `anki_words`, unreachable. */
  function DeleteSpec(t: Tables, dutch: string): (Tables, bool)
  {
    if dutch in t.words then (t.(words := t.words - {dutch}), true) else (t, false)
  }

  /** `delete_word` returns true exactly when the word was stored; afterwards
      neither the word nor a sync record for it can be read, which is what
      the declared cascade promises, and every other word keeps its row and
      record. */
  lemma DeleteEffect(t: Tables, dutch: string)
    requires Valid(t)
    ensures var (t', deleted) := DeleteSpec(t, dutch);
      && Valid(t')
      && (deleted <==> dutch in t.words)
      && WordOf(t', dutch) == None && RecordOf(t', dutch) == None
      && dutch !in SyncedKeys(t') && dutch !in UnsyncedKeys(t')
      && |t'.words| == (if deleted then |t.words| - 1 else |t.words|)
      && (forall d :: d != dutch ==> WordOf(t', d) == WordOf(t, d) && RecordOf(t', d) == RecordOf(t, d))
  {
    var (t', deleted) := DeleteSpec(t, dutch);
    if deleted {
      assert t'.words.Keys == t.words.Keys - {dutch};
    }
  }

  /** A word deleted and saved again gets a fresh id, so it starts without a
      sync record: the next `mark_synced` counts from 1 instead of
      inheriting the old record left behind by the delete. */
  lemma RecreatedWordStartsFresh(t: Tables, w: Word, now: Timestamp, note: Option<NoteRef>, deck: string, later: Timestamp)
    requires Valid(t)
    ensures var t1 := DeleteSpec(t, w.dutch).0;
            var t2 := SaveWordSpec(t1, w, now).0;
            var t3 := MarkSyncedSpec(t2, w.dutch, note, deck, later);
      && RecordOf(t2, w.dutch) == None
      && RecordOf(t3, w.dutch) == Some(SyncRecord(note, deck, Some(later), Some(later), 1, NoTelemetry))
  {
    DeleteEffect(t, w.dutch);
    var t1 := DeleteSpec(t, w.dutch).0;
    SaveIsUpsert(t1, w, now);
    MarkSyncedEffect(SaveWordSpec(t1, w, now).0, w.dutch, note, deck, later);
  }

  // ------------------------------------------------------------- migrations

  /** The columns of `wanted`, in order, that `existing` lacks. */
  function MissingColumns(existing: seq<string>, wanted: seq<string>): (r: seq<string>)
    ensures forall c :: c in r ==> c in wanted && c !in existing
    ensures forall c :: c in wanted && c !in existing ==> c in r
  {
    if wanted == [] then []
    else
      var last := wanted[|wanted| - 1];
      assert wanted == wanted[..|wanted| - 1] + [last];
      MissingColumns(existing, wanted[..|wanted| - 1]) + (if last in existing then [] else [last])
  }

  /** Looking at one more wanted column adds it at the end if it is missing. */
  lemma MissingColumnsStep(existing: seq<string>, wanted: seq<string>, i: nat)
    requires i < |wanted|
    ensures MissingColumns(existing, wanted[..i + 1])
         == MissingColumns(existing, wanted[..i]) + (if wanted[i] in existing then [] else [wanted[i]])
  {
    assert wanted[..i + 1][..i] == wanted[..i];
  }

  /** `_migrate_add_anki_stats_columns`. */
  function AddStatsColumns(t: Tables): Tables
  {
    t.(ankiColumns := t.ankiColumns + MissingColumns(t.ankiColumns, StatsColumns))
  }

  /** Adding the statistics columns only appends, only appends columns that
      were missing, leaves every statistics column present, and a second run
      adds nothing. */
  lemma AddStatsColumnsAdditive(t: Tables)
    ensures var t' := AddStatsColumns(t);
      && t'.ankiColumns[..|t.ankiColumns|] == t.ankiColumns
      && (forall i :: |t.ankiColumns| <= i < |t'.ankiColumns| ==> t'.ankiColumns[i] !in t.ankiColumns)
      && (forall c :: c in StatsColumns ==> c in t'.ankiColumns)
      && AddStatsColumns(t') == t'
      && t'.(ankiColumns := t.ankiColumns) == t
  {
    var t' := AddStatsColumns(t);
    forall i | |t.ankiColumns| <= i < |t'.ankiColumns| ensures t'.ankiColumns[i] !in t.ankiColumns {
      assert t'.ankiColumns[i] in MissingColumns(t.ankiColumns, StatsColumns);
    }
    NothingMissing(t'.ankiColumns, StatsColumns);
  }

  lemma NothingMissing(existing: seq<string>, wanted: seq<string>)
    requires forall c :: c in wanted ==> c in existing
    ensures MissingColumns(existing, wanted) == []
  {
    if MissingColumns(existing, wanted) != [] {
      assert MissingColumns(existing, wanted)[0] in MissingColumns(existing, wanted);
    }
  }

  /** A row the legacy migration copies: flagged as synced, with a note id. */
  predicate LegacySynced(row: Row)
  {
    row.legacySynced == Some(1) && row.legacyNoteId.Some?
  }

  /** The sync record copied from a legacy row: its note id, the default
      deck, `synced_at` from the row's `updated_at`, and a count of 1. */
  function LegacyRecord(row: Row): SyncRecord
    requires LegacySynced(row)
  {
    SyncRecord(Some(NoteId(row.legacyNoteId.value)), DefaultDeck, Some(row.updatedAt), None, 1, NoTelemetry)
  }

  /** The records `INSERT OR IGNORE ... SELECT` adds: one per legacy synced
      row whose id has no record yet. */
  function LegacyRecords(t: Tables): (r: map<int, SyncRecord>)
    requires Valid(t)
    ensures forall id :: id in r ==> id < t.nextId && id !in t.ankiWords
  {
    map d | d in t.words && LegacySynced(t.words[d]) && t.words[d].id !in t.ankiWords
      :: t.words[d].id := LegacyRecord(t.words[d])
  }

  /** `_migrate_legacy_anki_data`. */
  function MigrateLegacy(t: Tables): (r: Tables)
    requires Valid(t)
    ensures Valid(r) && r.words == t.words
  {
    if "synced_to_anki" in t.wordColumns && "anki_note_id" in t.wordColumns
    then t.(ankiWords := t.ankiWords + LegacyRecords(t))
    else t
  }

  /** A record is added exactly for each legacy synced row whose id has no
      record yet, under that row's id, which the counter has handed out. */
  lemma LegacyRecordsKeys(t: Tables)
    requires Valid(t)
    ensures forall d :: d in t.words && LegacySynced(t.words[d]) && t.words[d].id !in t.ankiWords ==>
              t.words[d].id in LegacyRecords(t)
    ensures forall id :: id in LegacyRecords(t) ==> id < t.nextId && id !in t.ankiWords
  {
    forall id | id in LegacyRecords(t) ensures id < t.nextId && id !in t.ankiWords {
      var d :| d in t.words && LegacySynced(t.words[d]) && t.words[d].id !in t.ankiWords && t.words[d].id == id;
    }
  }

  /** When every legacy synced row already has a record, nothing is added. */
  lemma LegacyRecordsDone(t: Tables)
    requires Valid(t)
    requires forall d :: d in t.words && LegacySynced(t.words[d]) ==> t.words[d].id in t.ankiWords
    ensures LegacyRecords(t) == map[]
  {
    assert LegacyRecords(t).Keys == {};
  }

  /** The legacy copy keeps the store valid, never overwrites an existing
      sync record and gives every legacy synced row a record. */
  lemma MigrateLegacyEffect(t: Tables)
    requires Valid(t)
    ensures var t' := MigrateLegacy(t);
      && Valid(t') && t'.words == t.words
      && (forall id :: id in t.ankiWords ==> id in t'.ankiWords && t'.ankiWords[id] == t.ankiWords[id])
      && ("synced_to_anki" in t.wordColumns && "anki_note_id" in t.wordColumns ==>
            forall d :: d in t.words && LegacySynced(t.words[d]) ==> RecordOf(t', d).Some?)
  {
    if "synced_to_anki" in t.wordColumns && "anki_note_id" in t.wordColumns {
      LegacyRecordsKeys(t);
      var t' := MigrateLegacy(t);
      var added := LegacyRecords(t);
      assert t'.ankiWords == t.ankiWords + added;
      assert forall id :: id in t'.ankiWords ==> id < t'.nextId;
      assert Valid(t');
      forall d | d in t.words && LegacySynced(t.words[d]) ensures RecordOf(t', d).Some? {
        assert t.words[d].id in t.ankiWords || t.words[d].id in added;
      }
    }
  }

  /** Running the legacy copy a second time changes nothing. */
  lemma MigrateLegacyIdempotent(t: Tables)
    requires Valid(t)
    ensures MigrateLegacy(MigrateLegacy(t)) == MigrateLegacy(t)
  {
    var t' := MigrateLegacy(t);
    if "synced_to_anki" in t.wordColumns && "anki_note_id" in t.wordColumns {
      MigratedLegacyDone(t);
      UnionEmpty(t'.ankiWords);
    }
  }

  lemma UnionEmpty<K, V>(m: map<K, V>)
    ensures m + map[] == m
  {
  }

  lemma MigratedLegacyDone(t: Tables)
    requires Valid(t)
    requires "synced_to_anki" in t.wordColumns && "anki_note_id" in t.wordColumns
    ensures LegacyRecords(MigrateLegacy(t)) == map[]
  {
    MigrateLegacyEffect(t);
    LegacyRecordsDone(MigrateLegacy(t));
  }

  /** `_migrate_add_level_column`: when the column is missing it is appended
      with default '', which every existing row then reads. */
  function AddLevelColumn(t: Tables): Tables
  {
    if "level" in t.wordColumns then t
    else t.(wordColumns := t.wordColumns + ["level"],
            words := map d | d in t.words :: t.words[d].(record := t.words[d].record.(level := "")))
  }

  /** All three migrations, in the order `init_database` runs them. */
  function Migrate(t: Tables): Tables
    requires Valid(t)
  {
    AddLevelColumn(AddStatsColumns(MigrateLegacy(t)))
  }

  /** The level migration keeps the store valid, only appends, leaves the
      column present, and a legacy store's words read back with level ''. */
  lemma AddLevelColumnEffect(t: Tables)
    requires Valid(t)
    ensures var t' := AddLevelColumn(t);
      && Valid(t') && "level" in t'.wordColumns
      && t'.wordColumns[..|t.wordColumns|] == t.wordColumns
      && (forall c :: c in t'.wordColumns && c != "level" ==> c in t.wordColumns)
      && t'.ankiWords == t.ankiWords && t'.ankiColumns == t.ankiColumns && t'.words.Keys == t.words.Keys
      && (forall d :: d in t.words ==>
            && t'.words[d].id == t.words[d].id
            && t'.words[d].legacySynced == t.words[d].legacySynced
            && t'.words[d].legacyNoteId == t.words[d].legacyNoteId)
      && ("level" !in t.wordColumns ==> forall d :: d in t.words ==> WordOf(t', d).value.level == "")
      && AddLevelColumn(t') == t'
  {
  }

  /** A pre-sync file, whose words table has no `anki_words` table beside
      it, is opened with the full sync table: every column of `anki_words`
      is present once the tables are created and migrated, and its words
      are kept. */
  lemma PreSyncFileGetsSyncTable(t: Tables)
    requires Valid(t) && t.ankiColumns == []
    ensures var t3 := Migrate(CreateTables(t));
      && t3.ankiColumns == AnkiColumns
      && t3.words.Keys == t.words.Keys
  {
    var t1 := MigrateLegacy(CreateTables(t));
    MigrateLegacyEffect(CreateTables(t));
    NothingMissing(t1.ankiColumns, StatsColumns);
    AddLevelColumnEffect(AddStatsColumns(t1));
  }

  /** Opening a store twice migrates it once: the second run of the three
      migrations changes nothing, and no stored word or sync record is lost. */
  lemma MigrateIdempotent(t: Tables)
    requires Valid(t)
    ensures Valid(Migrate(t))
    ensures Migrate(Migrate(t)) == Migrate(t)
    ensures Migrate(t).words.Keys == t.words.Keys
    ensures forall id :: id in t.ankiWords ==> id in Migrate(t).ankiWords && Migrate(t).ankiWords[id] == t.ankiWords[id]
  {
    MigratedKeepsData(t);
    var t3 := Migrate(t);
    MigratedLegacyFixed(t);
    NothingMissing(t3.ankiColumns, StatsColumns);
    AddLevelColumnEffect(t3);
  }

  /** The three migrations keep the store valid, lose no word or record,
      and leave every statistics column and `level` present. */
  lemma MigratedKeepsData(t: Tables)
    requires Valid(t)
    ensures var t3 := Migrate(t);
      && Valid(t3) && t3.words.Keys == t.words.Keys
      && (forall id :: id in t.ankiWords ==> id in t3.ankiWords && t3.ankiWords[id] == t.ankiWords[id])
      && (forall c :: c in StatsColumns ==> c in t3.ankiColumns)
      && "level" in t3.wordColumns
  {
    var t1 := MigrateLegacy(t);
    MigrateLegacyEffect(t);
    AddStatsColumnsAdditive(t1);
    AddLevelColumnEffect(AddStatsColumns(t1));
  }

  /** After the migrations, every legacy synced row has a record, so the
      legacy copy has nothing left to add. */
  lemma MigratedLegacyFixed(t: Tables)
    requires Valid(t)
    ensures MigrateLegacy(Migrate(t)) == Migrate(t)
  {
    var t1 := MigrateLegacy(t);
    var t2 := AddStatsColumns(t1);
    var t3 := AddLevelColumn(t2);
    MigrateLegacyEffect(t);
    AddStatsColumnsAdditive(t1);
    AddLevelColumnEffect(t2);
    if "synced_to_anki" in t3.wordColumns && "anki_note_id" in t3.wordColumns {
      assert "synced_to_anki" in t.wordColumns && "anki_note_id" in t.wordColumns;
      forall d | d in t3.words && LegacySynced(t3.words[d]) ensures t3.words[d].id in t3.ankiWords {
        assert RecordOf(t1, d).Some?;
      }
      LegacyRecordsDone(t3);
      UnionEmpty(t3.ankiWords);
    }
  }
}
