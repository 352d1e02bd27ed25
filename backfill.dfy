/** backfill.py: copying words between Anki and the local store in bulk.
    `anki_to_word` reads a note as AnkiConnect's `notesInfo` reports it;
    the two export loops take the replies of AnkiConnect and the failures of
    the store as parameters. */
module Backfill {
  import opened Wrappers
  import opened Json
  import opened Text
  import opened Words
  import opened Anki
  import opened Store
  import opened Database

  /** A field of a note: a plain JSON value, or an object whose "value"
      member is the text (None when that member is missing). */
  datatype FieldValue = Plain(value: Scalar) | Wrapped(inner: Option<Scalar>)

  /** A note as `notesInfo` describes it: its id (None when absent) and its
      fields by name. */
  datatype RawNote = RawNote(noteId: Option<int>, fields: map<string, FieldValue>)

  /** `get_field_value(field_name)`: unwraps either form; a missing field,
      or a wrapper without "value", reads as the empty string. */
  function GetFieldValue(fields: map<string, FieldValue>, name: string): Scalar
  {
    if name !in fields then Str("")
    else match fields[name]
      case Plain(v) => v
      case Wrapped(inner) => if inner.Some? then inner.value else Str("")
  }

  /** Both field forms carry the same text, and a missing field is empty. */
  lemma GetFieldValueForms(fields: map<string, FieldValue>, name: string, s: string)
    ensures GetFieldValue(fields[name := Plain(Str(s))], name) == Str(s)
    ensures GetFieldValue(fields[name := Wrapped(Some(Str(s)))], name) == Str(s)
    ensures GetFieldValue(fields - {name}, name) == Str("")
    ensures GetFieldValue(fields[name := Wrapped(None)], name) == Str("")
  {
  }

  /** `[line.strip() for line in lines if line.strip()]`. */
  function CleanLines(lines: seq<string>): (r: seq<string>)
    ensures |r| <= |lines|
    ensures forall i :: 0 <= i < |r| ==> r[i] != [] && Stripped(r[i])
    ensures forall i :: 0 <= i < |r| ==> exists j :: 0 <= j < |lines| && r[i] == Strip(lines[j])
  {
    if lines == [] then []
    else
      var rest := CleanLines(lines[1..]);
      var head := Strip(lines[0]);
      assert forall i :: 0 <= i < |rest| ==> exists j :: 0 <= j < |lines| && rest[i] == Strip(lines[j]) by {
        forall i | 0 <= i < |rest| ensures exists j :: 0 <= j < |lines| && rest[i] == Strip(lines[j]) {
          var k :| 0 <= k < |lines[1..]| && rest[i] == Strip(lines[1..][k]);
          assert rest[i] == Strip(lines[k + 1]);
        }
      }
      if head != [] then [head] + rest else rest
  }

  /** A list field: the field's lines, stripped, blank ones dropped. No
      element is empty, has whitespace at either end, or holds a break. */
  function ParseList(s: string): (r: seq<string>)
    ensures forall i :: 0 <= i < |r| ==> r[i] != [] && Stripped(r[i]) && '\n' !in r[i]
  {
    var lines := Split(s, '\n');
    var r := CleanLines(lines);
    assert forall i :: 0 <= i < |r| ==> '\n' !in r[i] by {
      forall i | 0 <= i < |r| ensures '\n' !in r[i] {
        var j :| 0 <= j < |lines| && r[i] == Strip(lines[j]);
      }
    }
    r
  }

  /** The text of a field, when it is text. */
  function FieldText(fields: map<string, FieldValue>, name: string): string
  {
    var v := GetFieldValue(fields, name);
    if v.Str? then v.s else ""
  }

  /** Every field `anki_to_word` reads holds text; any other value makes
      building the word fail. */
  predicate AllText(fields: map<string, FieldValue>)
  {
    && GetFieldValue(fields, "Word").Str? && GetFieldValue(fields, "Translation").Str?
    && GetFieldValue(fields, "Definition").Str? && GetFieldValue(fields, "Definition (eng)").Str?
    && GetFieldValue(fields, "Pronunciation").Str? && GetFieldValue(fields, "Grammar").Str?
    && GetFieldValue(fields, "Collocations").Str? && GetFieldValue(fields, "Synonyms").Str?
    && GetFieldValue(fields, "Examples").Str? && GetFieldValue(fields, "Examples (eng)").Str?
    && GetFieldValue(fields, "Etymology").Str? && GetFieldValue(fields, "Related").Str?
  }

  /** `anki_to_word(note)`: the word the note describes, or None when a
      field is not text (the conversion error is caught). The level is
      not stored in Anki and reads as ''. */
  function AnkiToWord(note: RawNote): (r: Option<Word>)
    ensures r.Some? <==> AllText(note.fields)
    ensures r.Some? ==> r.value.dutch == FieldText(note.fields, "Word") && r.value.level == ""
  {
    if !AllText(note.fields) then None
    else
      var f := note.fields;
      Some(Word(
        dutch := FieldText(f, "Word"),
        translation := FieldText(f, "Translation"),
        definitionNl := FieldText(f, "Definition"),
        definitionEn := FieldText(f, "Definition (eng)"),
        pronunciation := FieldText(f, "Pronunciation"),
        grammar := FieldText(f, "Grammar"),
        collocations := ParseList(FieldText(f, "Collocations")),
        synonyms := ParseList(FieldText(f, "Synonyms")),
        examplesNl := ParseList(FieldText(f, "Examples")),
        examplesEn := ParseList(FieldText(f, "Examples (eng)")),
        etymology := FieldText(f, "Etymology"),
        related := ParseList(FieldText(f, "Related")),
        level := ""))
  }

  /** The note as `notesInfo` reports it back after `addNote`: each field
      wrapped in an object with its text under "value". */
  function AsRawNote(n: Note, noteId: Option<int>): RawNote
  {
    RawNote(noteId, map k | k in n.fields :: Wrapped(Some(Str(n.fields[k]))))
  }

  /** A list whose elements survive the line-based field format. */
  predicate CleanList(xs: seq<string>)
  {
    forall i :: 0 <= i < |xs| ==> xs[i] != [] && Stripped(xs[i]) && '\n' !in xs[i]
  }

  /** A clean list is read back from its joined form unchanged. */
  lemma ParseListJoin(xs: seq<string>)
    requires CleanList(xs)
    ensures ParseList(Join(xs, "\n")) == xs
  {
    if xs == [] {
      assert Split("", '\n') == [""];
      assert Strip("") == "" by { StripStripped(""); }
    } else {
      SplitJoin(xs, '\n');
      CleanLinesClean(xs);
    }
  }

  lemma {:induction false} CleanLinesClean(xs: seq<string>)
    requires CleanList(xs)
    ensures CleanLines(xs) == xs
  {
    if xs != [] {
      StripStripped(xs[0]);
      CleanLinesClean(xs[1..]);
    }
  }

  /** Sending a word to Anki and reading the note back recovers it, except
      the two fields a note does not carry: synonyms come back empty and
      the level as ''. This needs list elements that are non-empty, free of
      surrounding whitespace and of line breaks, since the field format
      keeps one element per line. */
  lemma AnkiRoundTrip(w: Word, deckName: string, noteId: Option<int>)
    requires CleanList(w.collocations) && CleanList(w.examplesNl)
    requires CleanList(w.examplesEn) && CleanList(w.related)
    ensures AnkiToWord(AsRawNote(BuildNote(w, deckName), noteId)) == Some(w.(synonyms := [], level := ""))
  {
    var note := AsRawNote(BuildNote(w, deckName), noteId);
    ReportedFields(w, deckName, noteId);
    ParseListJoin(w.collocations);
    ParseListJoin(w.examplesNl);
    ParseListJoin(w.examplesEn);
    ParseListJoin(w.related);
    ParseListJoin([]);
    var r := AnkiToWord(note).value;
    assert r.collocations == w.collocations && r.examplesNl == w.examplesNl;
    assert r.examplesEn == w.examplesEn && r.related == w.related && r.synonyms == [];
  }

  /** The fields of the reported note, as `anki_to_word` reads them. */
  lemma ReportedFields(w: Word, deckName: string, noteId: Option<int>)
    ensures var f := AsRawNote(BuildNote(w, deckName), noteId).fields;
      && AllText(f)
      && FieldText(f, "Word") == w.dutch && FieldText(f, "Translation") == w.translation
      && FieldText(f, "Definition") == w.definitionNl && FieldText(f, "Definition (eng)") == w.definitionEn
      && FieldText(f, "Pronunciation") == w.pronunciation && FieldText(f, "Grammar") == w.grammar
      && FieldText(f, "Etymology") == w.etymology
      && FieldText(f, "Collocations") == Join(w.collocations, "\n")
      && FieldText(f, "Examples") == Join(w.examplesNl, "\n")
      && FieldText(f, "Examples (eng)") == Join(w.examplesEn, "\n")
      && FieldText(f, "Related") == Join(w.related, "\n")
      && FieldText(f, "Synonyms") == Join([], "\n")
  {
    var n := BuildNote(w, deckName);
    var f := AsRawNote(n, noteId).fields;
    BuildNoteShape(w, deckName);
    forall name | name in n.fields
      ensures GetFieldValue(f, name) == Str(n.fields[name]) && FieldText(f, name) == n.fields[name]
    {
      RawFieldText(n, noteId, name);
    }
    RawFieldText(n, noteId, "Synonyms");
  }

  /** A field of the reported note reads as the text that was sent, and a
      field that was not sent reads as empty. */
  lemma RawFieldText(n: Note, noteId: Option<int>, name: string)
    ensures var f := AsRawNote(n, noteId).fields;
      && (name in n.fields ==> GetFieldValue(f, name) == Str(n.fields[name]) && FieldText(f, name) == n.fields[name])
      && (name !in n.fields ==> GetFieldValue(f, name) == Str("") && FieldText(f, name) == "")
  {
  }

  // ------------------------------------------------------ Anki to the store

  /** The store's behaviour while importing one note. */
  datatype ImportEnv = ImportEnv(savedAt: Timestamp, saveOk: bool, markedAt: Timestamp, markOk: bool)

  function NoteRefOf(noteId: Option<int>): Option<NoteRef>
  {
    if noteId.Some? then Some(NoteId(noteId.value)) else None
  }

  /** The tables after importing one note, given what `anki_to_word` made
      of it: a converted word is saved, then marked synced under the default
      deck with the note's own id; a failed save skips the note, a failed
      mark leaves it saved. */
  function ImportSpec(t: Tables, word: Option<Word>, noteId: Option<int>, e: ImportEnv): Tables
  {
    match word
    case None => t
    case Some(w) =>
      if !e.saveOk then t
      else
        var saved := SaveWordSpec(t, w, e.savedAt).0;
        if e.markOk then MarkSyncedSpec(saved, w.dutch, NoteRefOf(noteId), DefaultDeck, e.markedAt)
        else saved
  }

  function ImportNoteSpec(t: Tables, note: RawNote, e: ImportEnv): Tables
  {
    ImportSpec(t, AnkiToWord(note), note.noteId, e)
  }

  /** Whether importing the note counts as a success. */
  predicate Imported(note: RawNote, e: ImportEnv)
  {
    AnkiToWord(note).Some? && e.saveOk && e.markOk
  }

  /** A successfully imported word reads back as converted and its sync
      record carries the note's own id; after a failed mark it is saved but
      its record is as before; other words are untouched. */
  lemma ImportEffect(t: Tables, word: Option<Word>, noteId: Option<int>, e: ImportEnv)
    requires Valid(t)
    ensures var t' := ImportSpec(t, word, noteId, e);
      && Valid(t')
      && (word.Some? && e.saveOk ==> WordOf(t', word.value.dutch) == word)
      && (word.Some? && e.saveOk && e.markOk ==>
            RecordOf(t', word.value.dutch) == Some(MarkRecord(RecordOf(t, word.value.dutch), NoteRefOf(noteId), DefaultDeck, e.markedAt)))
      && (word.Some? && !e.markOk ==> RecordOf(t', word.value.dutch) == RecordOf(t, word.value.dutch))
      && (word.None? || !e.saveOk ==> t' == t)
      && (forall d :: word.None? || d != word.value.dutch ==>
            WordOf(t', d) == WordOf(t, d) && RecordOf(t', d) == RecordOf(t, d))
  {
    if word.Some? && e.saveOk {
      if e.markOk {
        ImportMarked(t, word.value, noteId, e);
      } else {
        ImportUnmarked(t, word.value, noteId, e);
      }
    }
  }

  lemma ImportMarked(t: Tables, w: Word, noteId: Option<int>, e: ImportEnv)
    requires Valid(t) && e.saveOk && e.markOk
    ensures var t' := ImportSpec(t, Some(w), noteId, e);
      && Valid(t') && WordOf(t', w.dutch) == Some(w)
      && RecordOf(t', w.dutch) == Some(MarkRecord(RecordOf(t, w.dutch), NoteRefOf(noteId), DefaultDeck, e.markedAt))
      && (forall d :: d != w.dutch ==> WordOf(t', d) == WordOf(t, d) && RecordOf(t', d) == RecordOf(t, d))
  {
    var saved := SaveWordSpec(t, w, e.savedAt).0;
    SaveIsUpsert(t, w, e.savedAt);
    MarkSyncedEffect(saved, w.dutch, NoteRefOf(noteId), DefaultDeck, e.markedAt);
  }

  lemma ImportUnmarked(t: Tables, w: Word, noteId: Option<int>, e: ImportEnv)
    requires Valid(t) && e.saveOk && !e.markOk
    ensures var t' := ImportSpec(t, Some(w), noteId, e);
      && Valid(t') && WordOf(t', w.dutch) == Some(w) && RecordOf(t', w.dutch) == RecordOf(t, w.dutch)
      && (forall d :: d != w.dutch ==> WordOf(t', d) == WordOf(t, d) && RecordOf(t', d) == RecordOf(t, d))
  {
    SaveIsUpsert(t, w, e.savedAt);
  }

  /** The tables after importing `notes` in order. */
  function ImportAll(t: Tables, notes: seq<RawNote>, env: nat -> ImportEnv): Tables
    decreases |notes|
  {
    if notes == [] then t
    else
      var n := |notes| - 1;
      ImportNoteSpec(ImportAll(t, notes[..n], env), notes[n], env(n))
  }

  /** How many of the first `n` notes are imported. */
  function ImportedCount(notes: seq<RawNote>, env: nat -> ImportEnv, n: nat): nat
    requires n <= |notes|
  {
    if n == 0 then 0 else ImportedCount(notes, env, n - 1) + (if Imported(notes[n - 1], env(n - 1)) then 1 else 0)
  }

  /** Importing one more note extends the fold and the count by that note. */
  lemma ImportAllStep(t: Tables, notes: seq<RawNote>, env: nat -> ImportEnv, i: nat)
    requires i < |notes|
    ensures ImportAll(t, notes[..i + 1], env) == ImportNoteSpec(ImportAll(t, notes[..i], env), notes[i], env(i))
    ensures ImportedCount(notes, env, i + 1) == ImportedCount(notes, env, i) + (if Imported(notes[i], env(i)) then 1 else 0)
  {
    assert notes[..i + 1][..i] == notes[..i];
  }

  lemma {:induction false} ImportedCountBounded(notes: seq<RawNote>, env: nat -> ImportEnv, n: nat)
    requires n <= |notes|
    ensures ImportedCount(notes, env, n) <= n
  {
    if n > 0 {
      ImportedCountBounded(notes, env, n - 1);
    }
  }

  lemma {:induction false} ImportAllValid(t: Tables, notes: seq<RawNote>, env: nat -> ImportEnv)
    requires Valid(t)
    ensures Valid(ImportAll(t, notes, env))
    decreases |notes|
  {
    if notes != [] {
      var n := |notes| - 1;
      ImportAllValid(t, notes[..n], env);
      ImportEffect(ImportAll(t, notes[..n], env), AnkiToWord(notes[n]), notes[n].noteId, env(n));
    }
  }

  /** One turn of the import loop: convert the note, save the word, mark
      it synced under its own note id; true when all three succeed. */
  method ImportNote(db: WordDatabase, note: RawNote, e: ImportEnv) returns (ok: bool)
    requires db.Valid()
    modifies db
    ensures db.Valid()
    ensures db.State() == ImportNoteSpec(old(db.State()), note, e)
    ensures ok == Imported(note, e)
  {
    ImportEffect(db.State(), AnkiToWord(note), note.noteId, e);
    var word := AnkiToWord(note);
    ok := false;
    if word.Some? && e.saveOk {
      var _ := db.SaveWord(word.value, e.savedAt);
      if e.markOk {
        db.MarkSynced(word.value.dutch, NoteRefOf(note.noteId), DefaultDeck, e.markedAt);
        ok := true;
      }
    }
  }

  /** `export_anki_to_db(deck_name)`. `find` is the outcome of `findNotes`
      (its "result" list, empty when missing or null), `info` that of
      `notesInfo` (None when its "result" is null). A connection error or
      no note ids gives (0, 0) with the store untouched; a null note list
      raises a TypeError; otherwise each note is imported in turn, failures
      skipped, and the result is (imported, number of notes). */
  method ExportAnkiToDb(db: WordDatabase, find: Call<seq<int>>, info: Call<Option<seq<RawNote>>>, env: nat -> ImportEnv)
    returns (r: Result<(nat, nat)>)
    requires db.Valid()
    modifies db
    ensures db.Valid()
    ensures find.Raised? || find.value == [] || info.Raised? ==> r == Ok((0, 0)) && db.State() == old(db.State())
    ensures find.Returned? && find.value != [] && info == Returned(None) ==> r.Err? && db.State() == old(db.State())
    ensures find.Returned? && find.value != [] && info.Returned? && info.value.Some? ==>
              var notes := info.value.value;
              && r == Ok((ImportedCount(notes, env, |notes|), |notes|))
              && r.value.0 <= r.value.1
              && db.State() == ImportAll(old(db.State()), notes, env)
  {
    if find.Raised? || find.value == [] {
      return Ok((0, 0));
    }
    if info.Raised? {
      return Ok((0, 0));
    }
    if info.value.None? {
      return Err("TypeError: 'NoneType' object is not iterable");
    }
    var notes := info.value.value;
    var successCount: nat := 0;
    for i := 0 to |notes|
      invariant db.Valid()
      invariant db.State() == ImportAll(old(db.State()), notes[..i], env)
      invariant successCount == ImportedCount(notes, env, i)
    {
      ImportAllStep(old(db.State()), notes, env, i);
      var ok := ImportNote(db, notes[i], env(i));
      if ok {
        successCount := successCount + 1;
      }
    }
    assert notes[..|notes|] == notes;
    ImportedCountBounded(notes, env, |notes|);
    r := Ok((successCount, |notes|));
  }

  // ------------------------------------------------------ the store to Anki

  /** The world's behaviour while exporting one word: AnkiConnect's reply
      to its `addNote`, and the store's while marking it. */
  datatype ExportEnv = ExportEnv(response: Call<Object>, markedAt: Timestamp, markOk: bool)

  /** The push of the word succeeded, in the truthy sense the loop tests. */
  predicate ExportPushed(e: ExportEnv)
  {
    AddNoteResult(e.response).Returned? && ObjectTruthy(AddNoteResult(e.response).value)
  }

  /** Exporting the word raises: `add_note` raised, or the mark after a
      truthy push did. Neither is caught. */
  predicate ExportFails(e: ExportEnv)
  {
    AddNoteResult(e.response).Raised? || (ExportPushed(e) && !e.markOk)
  }

  /** The sync record a stored word has after a successful export. */
  function ExportedRecord(t: Tables, dutch: string, e: ExportEnv): Option<SyncRecord>
  {
    if ExportPushed(e)
    then Some(MarkRecord(RecordOf(t, dutch), Some(RawReply(AddNoteResult(e.response).value)), DefaultDeck, e.markedAt))
    else RecordOf(t, dutch)
  }

  /** The stored words, by text, whose push succeeded. */
  function PushedKeys(keys: set<string>, env: string -> ExportEnv): set<string>
  {
    set d | d in keys && ExportPushed(env(d))
  }

  /** Exporting one more word adds it to the pushed words exactly when its
      push succeeded. */
  lemma PushedKeysStep(done: set<string>, d: string, env: string -> ExportEnv)
    requires d !in done
    requires |PushedKeys(done, env)| <= |done|
    ensures PushedKeys(done + {d}, env) == PushedKeys(done, env) + (if ExportPushed(env(d)) then {d} else {})
    ensures |PushedKeys(done + {d}, env)| == |PushedKeys(done, env)| + (if ExportPushed(env(d)) then 1 else 0)
    ensures |PushedKeys(done + {d}, env)| <= |done + {d}| == |done| + 1
  {
    assert d !in PushedKeys(done, env);
  }

  /** Some word is still to be exported while not all are. */
  lemma RestNonEmpty<T>(all: set<T>, done: set<T>)
    requires done <= all && done != all
    ensures exists x :: x in all && x !in done
  {
    assert !(all <= done);
  }

  /** Exporting a word leaves fewer to export. */
  lemma SmallerRest<T>(all: set<T>, done: set<T>, x: T)
    requires x in all && x !in done
    ensures |all - (done + {x})| < |all - done|
  {
    assert all - (done + {x}) == (all - done) - {x};
  }

  /** One turn of the export loop: push the stored word `dutch`, and mark
      it under the default deck when the reply is truthy. Reports whether
      it was pushed, or the exception that ends the export. */
  method ExportWord(db: WordDatabase, anki: AnkiConnect, dutch: string, deckName: string, e: ExportEnv)
    returns (r: Result<bool>)
    requires db.Valid() && dutch in db.words
    requires db != anki as object
    modifies db, anki
    ensures db.Valid() && db.words == old(db.words)
    ensures anki.requests == old(anki.requests) + [ExportRequest(old(db.State()), dutch)]
    ensures r.Err? <==> ExportFails(e)
    ensures r.Ok? ==> r.value == ExportPushed(e)
    ensures r.Ok? ==> RecordsExported(old(db.State()), db.State(), {dutch}, (_ => e))
  {
    var w := RecordToWord(db.words[dutch].record);
    var reply := anki.AddNote(w, deckName, e.response);
    if reply.Raised? {
      return Err("add_note raised");
    }
    if !ObjectTruthy(reply.value) {
      return Ok(false);
    }
    if !e.markOk {
      return Err("mark_synced raised");
    }
    MarkSyncedEffect(db.State(), dutch, Some(RawReply(reply.value)), DefaultDeck, e.markedAt);
    db.MarkSynced(dutch, Some(RawReply(reply.value)), DefaultDeck, e.markedAt);
    r := Ok(true);
  }

  /** The request the export sends for the stored word `dutch`: its note,
      rebuilt from the record, for the default deck. */
  function ExportRequest(t: Tables, dutch: string): Request
    requires dutch in t.words
  {
    AddNoteRequest(BuildNote(RecordToWord(t.words[dutch].record), DefaultDeck))
  }

  /** The requests the export sends when it visits the stored words in
      `order`, one per word, in that order. */
  function ExportRequests(t: Tables, order: seq<string>): (r: seq<Request>)
    requires forall i :: 0 <= i < |order| ==> order[i] in t.words
    ensures |r| == |order|
  {
    if order == [] then []
    else ExportRequests(t, order[..|order| - 1]) + [ExportRequest(t, order[|order| - 1])]
  }

  /** The i-th export request is the note of the i-th visited word. */
  lemma {:induction false} ExportRequestsOneEach(t: Tables, order: seq<string>)
    requires forall i :: 0 <= i < |order| ==> order[i] in t.words
    ensures forall i :: 0 <= i < |order| ==>
      ExportRequests(t, order)[i] == AddNoteRequest(BuildNote(RecordToWord(t.words[order[i]].record), DefaultDeck))
  {
    if order != [] {
      var init := order[..|order| - 1];
      ExportRequestsOneEach(t, init);
      forall i | 0 <= i < |order|
        ensures ExportRequests(t, order)[i] == AddNoteRequest(BuildNote(RecordToWord(t.words[order[i]].record), DefaultDeck))
      {
        if i < |init| {
          assert ExportRequests(t, order)[i] == ExportRequests(t, init)[i];
        }
      }
    }
  }

  /** Visiting one more word extends the logged requests by its request. */
  lemma ExportRequestsStep(t: Tables, log0: seq<Request>, order: seq<string>, d: string, log: seq<Request>)
    requires forall i :: 0 <= i < |order| ==> order[i] in t.words
    requires d in t.words
    requires log == log0 + ExportRequests(t, order) + [ExportRequest(t, d)]
    ensures forall i :: 0 <= i < |order + [d]| ==> (order + [d])[i] in t.words
    ensures log == log0 + ExportRequests(t, order + [d])
  {
    assert (order + [d])[..|order|] == order;
  }

  /** `order` lists each word of `done` exactly once. */
  ghost predicate Enumerates(order: seq<string>, done: set<string>)
  {
    && (forall i, j :: 0 <= i < j < |order| ==> order[i] != order[j])
    && (forall k :: k in order <==> k in done)
  }

  /** Visiting a word not yet visited keeps `order` an enumeration. */
  lemma EnumeratesStep(order: seq<string>, done: set<string>, d: string)
    requires Enumerates(order, done) && d !in done
    ensures Enumerates(order + [d], done + {d})
  {
    forall k
      ensures k in order + [d] <==> k in done + {d}
    {
      assert k in order + [d] <==> k in order || k == d;
    }
  }

  /** What the export has sent once the words in `done` are visited in
      `order`: one request per visited word, in that order. */
  ghost predicate ExportLogged(t0: Tables, log0: seq<Request>, log: seq<Request>, order: seq<string>, done: set<string>)
  {
    && Enumerates(order, done)
    && (forall i :: 0 <= i < |order| ==> order[i] in t0.words)
    && log == log0 + ExportRequests(t0, order)
  }

  /** Visiting one more stored word `d` keeps the export's log. */
  lemma ExportLoggedStep(t0: Tables, before: Tables, log0: seq<Request>, log: seq<Request>,
                         order: seq<string>, done: set<string>, d: string, after: seq<Request>)
    requires ExportLogged(t0, log0, log, order, done)
    requires before.words == t0.words && d in t0.words && d !in done
    requires after == log + [ExportRequest(before, d)]
    ensures ExportLogged(t0, log0, after, order + [d], done + {d})
  {
    ExportRequestsStep(t0, log0, order, d, after);
    EnumeratesStep(order, done, d);
  }

  /** The records of `t` are those of `t0` with every word of `done`
      exported. */
  predicate RecordsExported(t0: Tables, t: Tables, done: set<string>, env: string -> ExportEnv)
  {
    forall k :: k in t0.words ==>
      RecordOf(t, k) == if k in done then ExportedRecord(t0, k, env(k)) else RecordOf(t0, k)
  }

  /** Exporting one more word `d` extends the records the export has
      written by that word's. */
  lemma ExportedRecordsStep(t0: Tables, before: Tables, after: Tables, done: set<string>, d: string,
                            env: string -> ExportEnv)
    requires before.words == t0.words && after.words == t0.words && d !in done
    requires RecordsExported(t0, before, done, env)
    requires RecordsExported(before, after, {d}, (_ => env(d)))
    ensures RecordsExported(t0, after, done + {d}, env)
  {
  }

  /** What the export loop has achieved once the words in `done` are
      exported: no failure, their records written, `count` of them pushed. */
  predicate ExportProgress(t0: Tables, t: Tables, done: set<string>, env: string -> ExportEnv, count: nat)
  {
    && done <= t0.words.Keys
    && Valid(t) && t.words == t0.words
    && (forall d :: d in done ==> !ExportFails(env(d)))
    && RecordsExported(t0, t, done, env)
    && count == |PushedKeys(done, env)| <= |done|
  }

  /** Exporting one more word without failure keeps the loop's progress. */
  lemma ExportProgressStep(t0: Tables, before: Tables, after: Tables, done: set<string>, d: string,
                           env: string -> ExportEnv, count: nat)
    requires ExportProgress(t0, before, done, env, count)
    requires d in t0.words && d !in done
    requires Valid(after) && after.words == t0.words
    requires !ExportFails(env(d))
    requires RecordsExported(before, after, {d}, (_ => env(d)))
    ensures ExportProgress(t0, after, done + {d}, env, count + (if ExportPushed(env(d)) then 1 else 0))
    ensures |done + {d}| == |done| + 1
  {
    PushedKeysStep(done, d, env);
    ExportedRecordsStep(t0, before, after, done, d, env);
  }

  /** Once every stored word is exported, the loop's progress is the
      export's result. */
  lemma ExportFinished(t0: Tables, t: Tables, env: string -> ExportEnv, count: nat)
    requires ExportProgress(t0, t, t0.words.Keys, env, count)
    ensures count == |PushedKeys(t0.words.Keys, env)| <= |t0.words|
    ensures forall d :: d in t0.words ==> !ExportFails(env(d))
    ensures forall d :: d in t0.words ==> RecordOf(t, d) == ExportedRecord(t0, d, env(d))
  {
    assert |t0.words.Keys| == |t0.words|;
  }

  /** One turn of the export loop, with its bookkeeping: export `d` and
      extend the loop's progress and log by it, unless the turn fails. */
  method ExportNext(db: WordDatabase, anki: AnkiConnect, deckName: string, env: string -> ExportEnv,
                    t0: Tables, ghost log0: seq<Request>, done: set<string>, ghost order: seq<string>, count: nat, d: string)
    returns (r: Result<bool>)
    requires db != anki as object
    requires ExportProgress(t0, db.State(), done, env, count)
    requires ExportLogged(t0, log0, anki.requests, order, done)
    requires d in t0.words && d !in done
    modifies db, anki
    ensures db.Valid() && db.words == old(db.words)
    ensures r.Err? <==> ExportFails(env(d))
    ensures r.Ok? ==> r.value == ExportPushed(env(d))
    ensures r.Ok? ==>
      && ExportProgress(t0, db.State(), done + {d}, env, count + (if r.value then 1 else 0))
      && ExportLogged(t0, log0, anki.requests, order + [d], done + {d})
  {
    ghost var before := db.State();
    ghost var sent := anki.requests;
    r := ExportWord(db, anki, d, deckName, env(d));
    if r.Ok? {
      ExportProgressStep(t0, before, db.State(), done, d, env, count);
      ExportLoggedStep(t0, before, log0, sent, order, done, d, anki.requests);
    }
  }

  /** The export loop over the stored words, in any order: each word is
      pushed and, on a truthy reply, marked; the first exception ends it. */
  method ExportWords(db: WordDatabase, anki: AnkiConnect, deckName: string, env: string -> ExportEnv)
    returns (r: Result<(nat, nat)>, ghost order: seq<string>)
    requires db.Valid()
    requires db != anki as object
    modifies db, anki
    ensures db.Valid()
    ensures db.words == old(db.words)
    ensures r.Ok? <==> forall d :: d in old(db.words) ==> !ExportFails(env(d))
    ensures r.Ok? ==>
      && r.value == (|PushedKeys(old(db.words).Keys, env)|, |old(db.words)|)
      && r.value.0 <= r.value.1
      && Enumerates(order, old(db.words).Keys)
      && anki.requests == old(anki.requests) + ExportRequests(old(db.State()), order)
      && (forall d :: d in old(db.words) ==> RecordOf(db.State(), d) == ExportedRecord(old(db.State()), d, env(d)))
  {
    var t0 := db.State();
    ghost var log0 := anki.requests;
    var done: set<string> := {};
    var successCount: nat := 0;
    order := [];
    while done != t0.words.Keys
      invariant ExportProgress(t0, db.State(), done, env, successCount)
      invariant ExportLogged(t0, log0, anki.requests, order, done)
      decreases |t0.words.Keys - done|
    {
      RestNonEmpty(t0.words.Keys, done);
      var d :| d in db.words && d !in done;
      var pushed := ExportNext(db, anki, deckName, env, t0, log0, done, order, successCount, d);
      if pushed.Err? {
        assert d in old(db.words) && ExportFails(env(d));
        return Err(pushed.error), order;
      }
      if pushed.value {
        successCount := successCount + 1;
      }
      SmallerRest(t0.words.Keys, done, d);
      done := done + {d};
      order := order + [d];
    }
    ExportFinished(t0, db.State(), env, successCount);
    var total: nat := |t0.words|;
    r := Ok((successCount, total));
  }

  /** `export_db_to_anki(deck_name)`: pushes every stored word, in the
      store's order (any order here), and marks each truthy push under the
      default deck. An empty store gives (0, 0) without an Anki call. The
      export succeeds exactly when no word's push or mark raises; it then
      returns (pushed words, stored words), the requests sent are the
      stored words' notes, one per word, in the visiting order `order`, and
      each word's record is marked exactly when its push succeeded. */
  method ExportDbToAnki(db: WordDatabase, anki: AnkiConnect, deckName: string, env: string -> ExportEnv)
    returns (r: Result<(nat, nat)>, ghost order: seq<string>)
    requires db.Valid()
    requires db != anki as object
    modifies db, anki
    ensures db.Valid()
    ensures db.words == old(db.words)
    ensures old(db.words) == map[] ==> r == Ok((0, 0)) && anki.requests == old(anki.requests)
    ensures r.Ok? <==> forall d :: d in old(db.words) ==> !ExportFails(env(d))
    ensures r.Ok? ==>
      && r.value == (|PushedKeys(old(db.words).Keys, env)|, |old(db.words)|)
      && r.value.0 <= r.value.1
      && Enumerates(order, old(db.words).Keys)
      && anki.requests == old(anki.requests) + ExportRequests(old(db.State()), order)
      && (forall d :: d in old(db.words) ==> RecordOf(db.State(), d) == ExportedRecord(old(db.State()), d, env(d)))
  {
    var all := db.GetAllWords();
    AllWordsEmpty(db.State());
    if all == {} {
      assert PushedKeys(db.words.Keys, env) == {};
      return Ok((0, 0)), [];
    }
    r, order := ExportWords(db, anki, deckName, env);
  }
}
