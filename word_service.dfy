/** word_service.py: `WordService`, the object the bot and the viewer use
    for every word operation. It holds the store, the deck name it syncs
    under, and (as fields of the model) the AnkiConnect endpoint and the
    `ENABLE_ANKI_SYNC` setting it reads. */
module Service {
  import opened Wrappers
  import opened Json
  import opened Words
  import opened Anki
  import opened Store
  import opened Database
  import opened WordSync

  /** The names anki.py binds at module level: its imports, constants and
      functions. It defines no `delete_note`. */
  const AnkiModuleNames: set<string> := {
    "requests", "sys", "Word", "ANKI_CONNECT_URL", "MODEL_NAME", "DECK_NAME", "TAGS",
    "build_note", "add_notes", "add_note", "sync_anki"}

  /** The module the service is written against: anki.py with the
      `delete_note` this model gives `AnkiConnect` (`DeleteNote`). */
  const IntendedAnkiNames: set<string> := AnkiModuleNames + {"delete_note"}

  /** `from anki import delete_note, add_note`, in order. */
  const ServiceAnkiImports: seq<string> := ["delete_note", "add_note"]

  /** As written, importing word_service.py raises ImportError on its very
      first name from anki.py, so `WordService` can never be loaded. */
  lemma ServiceImportFails()
    ensures FirstMissing(AnkiModuleNames, ServiceAnkiImports) == Some("delete_note")
  {
    assert ServiceAnkiImports[0] !in AnkiModuleNames;
  }

  /** With `delete_note` defined beside `add_note`, every name the service
      imports from anki.py resolves. */
  lemma ServiceImportResolves()
    ensures FirstMissing(IntendedAnkiNames, ServiceAnkiImports) == None
  {
    forall i | 0 <= i < |ServiceAnkiImports| ensures ServiceAnkiImports[i] in IntendedAnkiNames {
    }
  }

  /** The note handle `get_sync_info` reports for a word, if any. */
  function StoredNote(t: Tables, dutch: string): Option<NoteRef>
  {
    if RecordOf(t, dutch).Some? then RecordOf(t, dutch).value.noteId else None
  }

  /** The handle has to be read before the delete: afterwards the word has
      no visible sync record, so no note could be found to delete remotely. */
  lemma NoteUnreadableAfterDelete(t: Tables, dutch: string)
    requires Valid(t)
    ensures StoredNote(DeleteSpec(t, dutch).0, dutch) == None
  {
    DeleteEffect(t, dutch);
  }

  /** `create` and `update` report a word as synced when the push result is
      not None, while the store marks it only when that result is truthy:
      an empty reply is reported as synced and yet leaves the word unsynced. */
  lemma ReportedSyncedButNotMarked(t: Tables, w: Word, deck: string, e: SyncEnv)
    requires Valid(t)
    requires e.saveOk && e.response == Returned(map[])
    ensures PushResult(true, e.response).Some?
    ensures RecordOf(SaveAndSyncSpec(t, w, deck, true, e), w.dutch) == RecordOf(t, w.dutch)
  {
    SaveAndSyncEffect(t, w, deck, true, e);
  }

  class WordService {
    const db: WordDatabase
    const anki: AnkiConnect
    const deckName: string
    const syncEnabled: bool

    predicate Valid()
      reads this, db
    {
      db.Valid() && db != anki as object
    }

    /** `WordService(db, deck_name)`, with the endpoint and the sync
        setting made explicit. */
    constructor (db: WordDatabase, anki: AnkiConnect, deckName: string, syncEnabled: bool)
      requires db.Valid() && db != anki as object
      ensures this.db == db && this.anki == anki
      ensures this.deckName == deckName && this.syncEnabled == syncEnabled
      ensures Valid()
    {
      this.db := db;
      this.anki := anki;
      this.deckName := deckName;
      this.syncEnabled := syncEnabled;
    }

    /** `_sync_word_to_anki(word)`: as `sync_word_to_anki`, for this
        service's deck. */
    method SyncWordToAnki(w: Word, response: Call<Object>) returns (r: Option<Object>)
      modifies anki
      ensures r == PushResult(syncEnabled, response)
      ensures anki.requests == old(anki.requests) + (if syncEnabled then [AddNoteRequest(BuildNote(w, DefaultDeck))] else [])
    {
      r := WordSync.SyncWordToAnki(anki, w, deckName, syncEnabled, response);
    }

    /** `_save_and_sync_word(word)`: save first, re-raising its failure
        before any Anki call; push; mark under this service's deck only on
        a truthy push, swallowing a failed mark. */
    method SaveAndSyncWord(w: Word, e: SyncEnv) returns (r: Call<(int, Option<Object>)>)
      requires Valid()
      modifies db, anki
      ensures Valid()
      ensures db.State() == SaveAndSyncSpec(old(db.State()), w, deckName, syncEnabled, e)
      ensures anki.requests == old(anki.requests) + PushRequests(w, syncEnabled, e)
      ensures r.Raised? <==> !e.saveOk
      ensures r.Returned? ==> r.value == (SaveWordSpec(old(db.State()), w, e.savedAt).1, PushResult(syncEnabled, e.response))
    {
      SaveAndSyncEffect(db.State(), w, deckName, syncEnabled, e);
      if !e.saveOk {
        return Raised;
      }
      var rowId := db.SaveWord(w, e.savedAt);
      var noteId := SyncWordToAnki(w, e.response);
      if noteId.Some? && ObjectTruthy(noteId.value) {
        if e.markOk {
          db.MarkSynced(w.dutch, Some(RawReply(noteId.value)), deckName, e.markedAt);
        }
      }
      r := Returned((rowId, noteId));
    }

    /** `create(word)`: the save-and-sync path; `synced` says whether the
        push result is not None. */
    method Create(w: Word, e: SyncEnv) returns (r: Call<(Word, bool)>)
      requires Valid()
      modifies db, anki
      ensures Valid()
      ensures db.State() == SaveAndSyncSpec(old(db.State()), w, deckName, syncEnabled, e)
      ensures anki.requests == old(anki.requests) + PushRequests(w, syncEnabled, e)
      ensures r.Raised? <==> !e.saveOk
      ensures r.Returned? ==> r.value == (w, PushResult(syncEnabled, e.response).Some?)
    {
      var saved := SaveAndSyncWord(w, e);
      if saved.Raised? {
        return Raised;
      }
      r := Returned((w, saved.value.1.Some?));
    }

    /** `update(word)`: the same path as `create`, so it creates a missing
        word too. */
    method Update(w: Word, e: SyncEnv) returns (r: Call<(Word, bool)>)
      requires Valid()
      modifies db, anki
      ensures Valid()
      ensures db.State() == SaveAndSyncSpec(old(db.State()), w, deckName, syncEnabled, e)
      ensures anki.requests == old(anki.requests) + PushRequests(w, syncEnabled, e)
      ensures r.Raised? <==> !e.saveOk
      ensures r.Returned? ==> r.value == (w, PushResult(syncEnabled, e.response).Some?)
    {
      var saved := SaveAndSyncWord(w, e);
      if saved.Raised? {
        return Raised;
      }
      r := Returned((w, saved.value.1.Some?));
    }

    /** `get(dutch)`. */
    method Get(dutch: string) returns (r: Option<Word>)
      requires Valid()
      ensures r == WordOf(db.State(), dutch)
      ensures r.Some? <==> dutch in db.words
      ensures r.Some? ==> r.value.dutch == dutch
    {
      r := db.GetWord(dutch);
    }

    /** `delete(dutch, delete_from_anki)`: reads the word's note handle,
        deletes the word locally, and only then, if the word existed, the
        flag is set, the handle is truthy and sync is enabled, deletes the
        note in Anki. The second result is None when no remote delete was
        attempted; an absent word gives (false, false) and no Anki call. */
    method Delete(dutch: string, deleteFromAnki: bool, remoteDeleted: bool) returns (dbDeleted: bool, ankiDeleted: Option<bool>)
      requires Valid()
      modifies db, anki
      ensures Valid()
      ensures db.State() == DeleteSpec(old(db.State()), dutch).0
      ensures dbDeleted <==> dutch in old(db.words)
      ensures !dbDeleted ==> ankiDeleted == Some(false) && anki.requests == old(anki.requests)
      ensures var note := StoredNote(old(db.State()), dutch);
        var attempt := dbDeleted && deleteFromAnki && note.Some? && RefTruthy(note.value) && syncEnabled;
        && (attempt ==> ankiDeleted == Some(remoteDeleted)
                        && anki.requests == old(anki.requests) + [DeleteNoteRequest(note.value)])
        && (dbDeleted && !attempt ==> ankiDeleted == None && anki.requests == old(anki.requests))
    {
      var info := db.GetSyncInfo(dutch);
      var note := if info.Some? then info.value.noteId else None;
      dbDeleted := db.DeleteWord(dutch);
      if !dbDeleted {
        return false, Some(false);
      }
      ankiDeleted := None;
      if deleteFromAnki && note.Some? && RefTruthy(note.value) && syncEnabled {
        var ok := anki.DeleteNote(note.value, remoteDeleted);
        ankiDeleted := Some(ok);
      }
    }

    /** `exists(dutch)`: whether `get` finds the word. */
    method Exists(dutch: string) returns (b: bool)
      requires Valid()
      ensures b <==> WordOf(db.State(), dutch).Some?
      ensures b <==> dutch in db.words
    {
      var w := Get(dutch);
      b := w.Some?;
    }

    /** `create_many(words)`: save-and-sync each word in turn; a word whose
        save raises is skipped and the rest go on. */
    method CreateMany(words: seq<Word>, env: nat -> SyncEnv) returns (totalSaved: nat, totalSynced: nat)
      requires Valid()
      modifies db, anki
      ensures Valid()
      ensures db.State() == SaveAndSyncAll(old(db.State()), words, deckName, syncEnabled, env)
      ensures anki.requests == old(anki.requests) + PushRequestsAll(words, syncEnabled, env)
      ensures totalSaved == SavedCount(env, |words|)
      ensures totalSynced == SyncedCount(syncEnabled, env, |words|)
      ensures totalSynced <= totalSaved <= |words|
    {
      CountsBounded(syncEnabled, env, |words|);
      totalSaved, totalSynced := 0, 0;
      for i := 0 to |words|
        invariant db.Valid()
        invariant db.State() == SaveAndSyncAll(old(db.State()), words[..i], deckName, syncEnabled, env)
        invariant anki.requests == old(anki.requests) + PushRequestsAll(words[..i], syncEnabled, env)
        invariant totalSaved == SavedCount(env, i)
        invariant totalSynced == SyncedCount(syncEnabled, env, i)
      {
        assert words[..i + 1][..i] == words[..i];
        var r := SaveAndSyncWord(words[i], env(i));
        if r.Returned? {
          totalSaved := totalSaved + 1;
          var noteId := r.value.1;
          if noteId.Some? && ObjectTruthy(noteId.value) {
            totalSynced := totalSynced + 1;
          }
        }
      }
      assert words[..|words|] == words;
    }

    /** `get_all()`. */
    method GetAll() returns (r: set<Word>)
      requires Valid()
      ensures r == AllWords(db.State())
    {
      r := db.GetAllWords();
    }

    /** `search(query)`. */
    method Search(query: string) returns (r: set<Word>)
      requires Valid()
      ensures r == Store.Search(db.State(), query)
      ensures r <= AllWords(db.State())
    {
      r := db.SearchWords(query);
      SearchWithinStore(db.State(), query);
    }

    /** `get_unsynced()`. */
    method GetUnsynced() returns (r: set<Word>)
      requires Valid()
      ensures r == UnsyncedWords(db.State())
    {
      r := db.GetUnsyncedWords();
    }

    /** `get_stats()`. */
    method GetStats() returns (s: Stats)
      requires Valid()
      ensures s == StatsOf(db.State())
      ensures s.syncedToAnki + s.unsynced == s.totalWords
    {
      s := db.GetStats();
    }

    /** `count()`: the stats total, which is the number of stored words. */
    method Count() returns (n: nat)
      requires Valid()
      ensures n == StatsOf(db.State()).totalWords
      ensures n == |db.words|
    {
      var s := GetStats();
      n := s.totalWords;
    }

    /** `mark_synced(dutch, anki_note_id)`: marks under the default deck, not
        the service's own. */
    method MarkSynced(dutch: string, noteId: Option<int>, now: Timestamp)
      requires Valid()
      modifies db
      ensures Valid()
      ensures db.State() == MarkSyncedSpec(old(db.State()), dutch,
                                           if noteId.Some? then Some(NoteId(noteId.value)) else None,
                                           DefaultDeck, now)
    {
      db.MarkSynced(dutch, if noteId.Some? then Some(NoteId(noteId.value)) else None, DefaultDeck, now);
    }
  }
}
