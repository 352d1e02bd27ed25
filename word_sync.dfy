/** word_sync.py: save a word locally, push it to Anki, and record the push.
    The outside world of one such step (the two clock readings, whether the
    store calls fail, and AnkiConnect's reply) is a `SyncEnv` parameter;
    whether sync is enabled is `Config.EnableAnkiSync` of the process
    environment, passed in as `enabled`. */
module WordSync {
  import opened Wrappers
  import opened Json
  import opened Words
  import opened Anki
  import opened Store
  import opened Database

  const DeckName := "Default"

  /** What the world does during one save-and-sync of a word. */
  datatype SyncEnv = SyncEnv(
    savedAt: Timestamp,
    saveOk: bool,
    response: Call<Object>,
    markedAt: Timestamp,
    markOk: bool)

  /** `sync_word_to_anki`'s result: nothing when sync is disabled or the
      call raised, otherwise whatever `add_note` returned. */
  function PushResult(enabled: bool, response: Call<Object>): Option<Object>
  {
    if !enabled then None
    else match AddNoteResult(response)
      case Raised => None
      case Returned(reply) => Some(reply)
  }

  /** The push counts as a success, as the callers test it: truthy. */
  predicate Pushed(enabled: bool, response: Call<Object>)
  {
    PushResult(enabled, response).Some? && ObjectTruthy(PushResult(enabled, response).value)
  }

  /** The tables after one save-and-sync whose sync record is written under
      `markDeck`: unchanged if the save fails; otherwise the word is saved,
      and its record is written only if the push was truthy and the mark
      did not fail. */
  function SaveAndSyncSpec(t: Tables, w: Word, markDeck: string, enabled: bool, e: SyncEnv): Tables
  {
    if !e.saveOk then t
    else
      var saved := SaveWordSpec(t, w, e.savedAt).0;
      if Pushed(enabled, e.response) && e.markOk
      then MarkSyncedSpec(saved, w.dutch, Some(RawReply(PushResult(enabled, e.response).value)), markDeck, e.markedAt)
      else saved
  }

  /** The Anki requests of one save-and-sync: one `addNote` for the word,
      built for the default deck, when the save succeeded and sync is on. */
  function PushRequests(w: Word, enabled: bool, e: SyncEnv): seq<Request>
  {
    if e.saveOk && enabled then [AddNoteRequest(BuildNote(w, DefaultDeck))] else []
  }

  /** After a successful save the word reads back as saved, whatever the
      push and the mark do, and every other word keeps its row and sync
      record. The word's own record is written exactly when the push was
      truthy and the mark succeeded, and is otherwise what it was before
      the save. A failed save changes nothing. */
  lemma SaveAndSyncEffect(t: Tables, w: Word, markDeck: string, enabled: bool, e: SyncEnv)
    requires Valid(t)
    ensures var t' := SaveAndSyncSpec(t, w, markDeck, enabled, e);
      && Valid(t')
      && (!e.saveOk ==> t' == t)
      && (e.saveOk ==> WordOf(t', w.dutch) == Some(w))
      && (forall d :: d != w.dutch ==> WordOf(t', d) == WordOf(t, d) && RecordOf(t', d) == RecordOf(t, d))
      && (e.saveOk && Pushed(enabled, e.response) && e.markOk ==>
            RecordOf(t', w.dutch) == Some(MarkRecord(RecordOf(t, w.dutch),
                                                      Some(RawReply(PushResult(enabled, e.response).value)),
                                                      markDeck, e.markedAt)))
      && (!(Pushed(enabled, e.response) && e.markOk) ==> RecordOf(t', w.dutch) == RecordOf(t, w.dutch))
  {
    if e.saveOk {
      SaveIsUpsert(t, w, e.savedAt);
      var saved := SaveWordSpec(t, w, e.savedAt).0;
      if Pushed(enabled, e.response) && e.markOk {
        MarkSyncedEffect(saved, w.dutch, Some(RawReply(PushResult(enabled, e.response).value)), markDeck, e.markedAt);
      }
    }
  }

  /** A reply reporting a duplicate note still counts as a successful
      push: it is returned as is, it is truthy, and the word gets marked. */
  lemma DuplicateCountsAsSynced(reply: Object, t: Tables, w: Word, markDeck: string, e: SyncEnv)
    requires IsDuplicate(reply) && Valid(t)
    ensures PushResult(true, Returned(reply)) == Some(reply)
    ensures Pushed(true, Returned(reply))
    ensures e.saveOk && e.markOk && e.response == Returned(reply) ==>
      RecordOf(SaveAndSyncSpec(t, w, markDeck, true, e), w.dutch)
        == Some(MarkRecord(RecordOf(t, w.dutch), Some(RawReply(reply)), markDeck, e.markedAt))
  {
    assert "error" in reply;
    SaveAndSyncEffect(t, w, markDeck, true, e);
  }

  /** `sync_word_to_anki(word, deck_name)`: no Anki call and None when
      sync is disabled; otherwise one `add_note`, whose exception becomes
      None and whose reply is returned as is. */
  method SyncWordToAnki(anki: AnkiConnect, w: Word, deckName: string, enabled: bool, response: Call<Object>)
    returns (r: Option<Object>)
    modifies anki
    ensures r == PushResult(enabled, response)
    ensures !enabled ==> r.None? && anki.requests == old(anki.requests)
    ensures enabled ==> anki.requests == old(anki.requests) + [AddNoteRequest(BuildNote(w, DefaultDeck))]
    ensures response.Raised? ==> r.None?
  {
    if !enabled {
      return None;
    }
    var reply := anki.AddNote(w, deckName, response);
    match reply {
      case Raised => r := None;
      case Returned(noteId) => r := Some(noteId);
    }
  }

  /** `save_and_sync_word(word, deck_name, db)`: saves first and re-raises a
      failed save before any Anki call; then pushes, and marks the word
      synced under the default deck, whatever `deck_name` says, only when
      the push is truthy; a failed mark is swallowed. Returns the row id of
      the save and the push result. */
  method SaveAndSyncWord(db: WordDatabase, anki: AnkiConnect, w: Word, deckName: string, enabled: bool, e: SyncEnv)
    returns (r: Call<(int, Option<Object>)>)
    requires db.Valid()
    requires db != anki as object
    modifies db, anki
    ensures db.Valid()
    ensures db.State() == SaveAndSyncSpec(old(db.State()), w, DeckName, enabled, e)
    ensures anki.requests == old(anki.requests) + PushRequests(w, enabled, e)
    ensures r.Raised? <==> !e.saveOk
    ensures r.Returned? ==> r.value == (SaveWordSpec(old(db.State()), w, e.savedAt).1, PushResult(enabled, e.response))
  {
    SaveAndSyncEffect(db.State(), w, DeckName, enabled, e);
    if !e.saveOk {
      return Raised;
    }
    var rowId := db.SaveWord(w, e.savedAt);
    var noteId := SyncWordToAnki(anki, w, deckName, enabled, e.response);
    if noteId.Some? && ObjectTruthy(noteId.value) {
      if e.markOk {
        db.MarkSynced(w.dutch, Some(RawReply(noteId.value)), DeckName, e.markedAt);
      }
    }
    r := Returned((rowId, noteId));
  }

  /** The tables after saving and syncing `words` in order, the `i`-th one
      in world `env(i)`. */
  function SaveAndSyncAll(t: Tables, words: seq<Word>, markDeck: string, enabled: bool, env: nat -> SyncEnv): Tables
    decreases |words|
  {
    if words == [] then t
    else
      var n := |words| - 1;
      SaveAndSyncSpec(SaveAndSyncAll(t, words[..n], markDeck, enabled, env), words[n], markDeck, enabled, env(n))
  }

  /** The Anki requests of the whole batch. */
  function PushRequestsAll(words: seq<Word>, enabled: bool, env: nat -> SyncEnv): seq<Request>
    decreases |words|
  {
    if words == [] then []
    else
      var n := |words| - 1;
      PushRequestsAll(words[..n], enabled, env) + PushRequests(words[n], enabled, env(n))
  }

  /** How many of the first `n` words are saved. */
  function SavedCount(env: nat -> SyncEnv, n: nat): nat
  {
    if n == 0 then 0 else SavedCount(env, n - 1) + (if env(n - 1).saveOk then 1 else 0)
  }

  /** How many of the first `n` words are saved and pushed. */
  function SyncedCount(enabled: bool, env: nat -> SyncEnv, n: nat): nat
  {
    if n == 0 then 0
    else SyncedCount(enabled, env, n - 1) + (if env(n - 1).saveOk && Pushed(enabled, env(n - 1).response) then 1 else 0)
  }

  /** The batch counters never exceed each other or the batch size, and
      with sync disabled nothing counts as synced. */
  lemma {:induction false} CountsBounded(enabled: bool, env: nat -> SyncEnv, n: nat)
    ensures SyncedCount(enabled, env, n) <= SavedCount(env, n) <= n
    ensures !enabled ==> SyncedCount(enabled, env, n) == 0
  {
    if n > 0 {
      CountsBounded(enabled, env, n - 1);
    }
  }

  /** The batch keeps the store valid, and each word whose save succeeded
      reads back as saved when no later word in the batch has the same text:
      one word's failure does not undo or stop the others. */
  lemma {:induction false} SaveAndSyncAllKeepsSaved(t: Tables, words: seq<Word>, markDeck: string, enabled: bool, env: nat -> SyncEnv)
    requires Valid(t)
    ensures Valid(SaveAndSyncAll(t, words, markDeck, enabled, env))
    ensures forall i :: 0 <= i < |words| && env(i).saveOk
                        && (forall j :: i < j < |words| ==> words[j].dutch != words[i].dutch) ==>
              WordOf(SaveAndSyncAll(t, words, markDeck, enabled, env), words[i].dutch) == Some(words[i])
    decreases |words|
  {
    if words != [] {
      var n := |words| - 1;
      var prefix := words[..n];
      SaveAndSyncAllKeepsSaved(t, prefix, markDeck, enabled, env);
      var before := SaveAndSyncAll(t, prefix, markDeck, enabled, env);
      SaveAndSyncEffect(before, words[n], markDeck, enabled, env(n));
      var after := SaveAndSyncAll(t, words, markDeck, enabled, env);
      assert after == SaveAndSyncSpec(before, words[n], markDeck, enabled, env(n));
      forall i | 0 <= i < n && env(i).saveOk
                 && (forall j :: i < j < |words| ==> words[j].dutch != words[i].dutch)
        ensures WordOf(after, words[i].dutch) == Some(words[i])
      {
        assert prefix[i] == words[i];
        assert forall j :: i < j < |prefix| ==> prefix[j].dutch != prefix[i].dutch;
        assert WordOf(before, words[i].dutch) == Some(words[i]);
        assert words[n].dutch != words[i].dutch;
      }
    }
  }

  /** Saving and syncing one more word extends the folds and the counters
      by that word. */
  lemma SaveAndSyncAllStep(t: Tables, log0: seq<Request>, words: seq<Word>, enabled: bool, env: nat -> SyncEnv, i: nat)
    requires i < |words|
    ensures SaveAndSyncAll(t, words[..i + 1], DeckName, enabled, env)
            == SaveAndSyncSpec(SaveAndSyncAll(t, words[..i], DeckName, enabled, env), words[i], DeckName, enabled, env(i))
    ensures log0 + PushRequestsAll(words[..i + 1], enabled, env)
            == log0 + PushRequestsAll(words[..i], enabled, env) + PushRequests(words[i], enabled, env(i))
    ensures SavedCount(env, i + 1) == SavedCount(env, i) + (if env(i).saveOk then 1 else 0)
    ensures SyncedCount(enabled, env, i + 1)
            == SyncedCount(enabled, env, i) + (if env(i).saveOk && Pushed(enabled, env(i).response) then 1 else 0)
  {
    assert words[..i + 1][..i] == words[..i];
  }

  /** `save_and_sync_words(words, deck_name, db)`: saves and syncs each word
      in turn; a word whose save raises is skipped and the loop goes on.
      Returns how many were saved and how many pushed. */
  method SaveAndSyncWords(db: WordDatabase, anki: AnkiConnect, words: seq<Word>, deckName: string, enabled: bool,
                          env: nat -> SyncEnv)
    returns (totalSaved: nat, totalSynced: nat)
    requires db.Valid()
    requires db != anki as object
    modifies db, anki
    ensures db.Valid()
    ensures db.State() == SaveAndSyncAll(old(db.State()), words, DeckName, enabled, env)
    ensures anki.requests == old(anki.requests) + PushRequestsAll(words, enabled, env)
    ensures totalSaved == SavedCount(env, |words|)
    ensures totalSynced == SyncedCount(enabled, env, |words|)
  {
    totalSaved, totalSynced := 0, 0;
    for i := 0 to |words|
      invariant db.Valid()
      invariant db.State() == SaveAndSyncAll(old(db.State()), words[..i], DeckName, enabled, env)
      invariant anki.requests == old(anki.requests) + PushRequestsAll(words[..i], enabled, env)
      invariant totalSaved == SavedCount(env, i)
      invariant totalSynced == SyncedCount(enabled, env, i)
    {
      SaveAndSyncAllStep(old(db.State()), old(anki.requests), words, enabled, env, i);
      var r := SaveAndSyncWord(db, anki, words[i], deckName, enabled, env(i));
      if r.Returned? {
        totalSaved := totalSaved + 1;
        var noteId := r.value.1;
        if noteId.Some? && ObjectTruthy(noteId.value) {
          totalSynced := totalSynced + 1;
        }
      }
    }
    assert words[..|words|] == words;
  }
}
