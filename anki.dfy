/** anki.py: the note sent to AnkiConnect for a word, and the three calls
    made to it. The HTTP exchange is outside the model: each call takes the
    transport outcome as a parameter, and the remote application is an
    object that records the requests it receives. */
module Anki {
  import opened Wrappers
  import opened Json
  import opened Text
  import opened Words

  const ModelName := "GPT"
  const DefaultDeck := "Default"
  const Tags: seq<string> := ["gpt"]
  const DuplicateError := "cannot create note because it is a duplicate"

  /** The eleven fields of a note of the "GPT" note type. */
  const NoteFields: set<string> := {
    "Word", "Translation", "Definition", "Definition (eng)", "Pronunciation",
    "Grammar", "Collocations", "Examples", "Examples (eng)", "Etymology", "Related" }

  /** The `note` object of an `addNote` request. */
  datatype Note = Note(
    deckName: string,
    modelName: string,
    fields: map<string, string>,
    allowDuplicate: bool,
    tags: seq<string>)

  /** `build_note(word, deck_name)`. */
  function BuildNote(w: Word, deckName: string): Note
  {
    Note(deckName, ModelName,
         map[
           "Word" := w.dutch,
           "Translation" := w.translation,
           "Definition" := w.definitionNl,
           "Definition (eng)" := w.definitionEn,
           "Pronunciation" := w.pronunciation,
           "Grammar" := w.grammar,
           "Collocations" := Join(w.collocations, "\n"),
           "Examples" := Join(w.examplesNl, "\n"),
           "Examples (eng)" := Join(w.examplesEn, "\n"),
           "Etymology" := w.etymology,
           "Related" := Join(w.related, "\n")],
         false, Tags)
  }

  /** A note is filed under the deck it is built for, with the fixed note
      type, tags and duplicate policy; it has exactly the eleven fields, the
      text fields copied verbatim and the list fields joined by line breaks;
      synonyms and level are not sent. */
  lemma BuildNoteShape(w: Word, deckName: string)
    ensures var n := BuildNote(w, deckName);
      && n.deckName == deckName && n.modelName == "GPT"
      && !n.allowDuplicate && n.tags == ["gpt"]
      && n.fields.Keys == NoteFields
      && "Synonyms" !in n.fields
      && n.fields["Word"] == w.dutch
      && n.fields["Translation"] == w.translation
      && n.fields["Definition"] == w.definitionNl
      && n.fields["Definition (eng)"] == w.definitionEn
      && n.fields["Pronunciation"] == w.pronunciation
      && n.fields["Grammar"] == w.grammar
      && n.fields["Etymology"] == w.etymology
      && n.fields["Collocations"] == Join(w.collocations, "\n")
      && n.fields["Examples"] == Join(w.examplesNl, "\n")
      && n.fields["Examples (eng)"] == Join(w.examplesEn, "\n")
      && n.fields["Related"] == Join(w.related, "\n")
  {
  }

  /** The note handle the store keeps in `anki_note_id`. Backfill stores
      AnkiConnect's integer note id, but `add_note` returns the whole reply
      object and its callers store that, so both kinds occur. */
  datatype NoteRef = NoteId(id: int) | RawReply(reply: Object)

  /** Python truthiness of a stored handle. */
  predicate RefTruthy(r: NoteRef)
  {
    match r
    case NoteId(i) => i != 0
    case RawReply(o) => ObjectTruthy(o)
  }

  /** A request as received by AnkiConnect. */
  datatype Request = AddNoteRequest(note: Note) | DeleteNoteRequest(target: NoteRef) | SyncRequest

  /** The reply reports a duplicate note. */
  predicate IsDuplicate(reply: Object)
  {
    "error" in reply && reply["error"].Str? && Contains(reply["error"].s, DuplicateError)
  }

  /** The reply carries a truthy error that is not text: testing it for the
      duplicate message raises a TypeError. */
  predicate ErrorNotText(reply: Object)
  {
    MemberTruthy(reply, "error") && !reply["error"].Str?
  }

  /** What `add_note` hands back for a transport outcome: the raw reply
      whatever it says, or an exception. */
  function AddNoteResult(response: Call<Object>): Call<Object>
  {
    match response
    case Raised => Raised
    case Returned(reply) => if ErrorNotText(reply) then Raised else Returned(reply)
  }

  /** A duplicate is tolerated: `add_note` returns that reply like any other.
      A reply comes back unchanged exactly when its error is textual or
      absent; a truthy non-text error raises instead. */
  lemma AddNoteKeepsReply(reply: Object)
    ensures AddNoteResult(Returned(reply)) == Returned(reply) <==> !ErrorNotText(reply)
    ensures ErrorNotText(reply) ==> AddNoteResult(Returned(reply)) == Raised
    ensures IsDuplicate(reply) ==> AddNoteResult(Returned(reply)) == Returned(reply)
  {
  }

  /** The index of the first word whose `add_note` raises, or `n` when none
      of the first `n` does. */
  function FirstRaise(responses: nat -> Call<Object>, from: nat, n: nat): (k: nat)
    requires from <= n
    ensures from <= k <= n
    ensures forall j :: from <= j < k ==> AddNoteResult(responses(j)).Returned?
    ensures k < n ==> AddNoteResult(responses(k)).Raised?
    decreases n - from
  {
    if from == n || AddNoteResult(responses(from)).Raised? then from
    else FirstRaise(responses, from + 1, n)
  }

  /** A raise at `i`, with none before it, is the first raise. */
  lemma FirstRaiseAt(responses: nat -> Call<Object>, n: nat, i: nat)
    requires i < n && FirstRaise(responses, 0, n) >= i
    requires AddNoteResult(responses(i)).Raised?
    ensures FirstRaise(responses, 0, n) == i
  {
  }

  /** A reply at `i`, with no raise before it, leaves the first raise later. */
  lemma FirstRaisePast(responses: nat -> Call<Object>, n: nat, i: nat)
    requires i < n && FirstRaise(responses, 0, n) >= i
    requires AddNoteResult(responses(i)).Returned?
    ensures FirstRaise(responses, 0, n) >= i + 1
  {
  }

  /** The `addNote` requests for a list of words, one per word, in order,
      each built for the default deck. */
  function AddRequests(words: seq<Word>): (r: seq<Request>)
    ensures |r| == |words|
  {
    if words == [] then [] else [AddNoteRequest(BuildNote(words[0], DefaultDeck))] + AddRequests(words[1..])
  }

  /** The i-th request is the note for the i-th word, in the default deck. */
  lemma {:induction false} AddRequestsOneEach(words: seq<Word>)
    ensures forall i :: 0 <= i < |words| ==>
      AddRequests(words)[i] == AddNoteRequest(BuildNote(words[i], DefaultDeck))
  {
    if words != [] {
      AddRequestsOneEach(words[1..]);
      forall i | 1 <= i < |words|
        ensures AddRequests(words)[i] == AddNoteRequest(BuildNote(words[i], DefaultDeck))
      {
        assert words[1..][i - 1] == words[i];
      }
    }
  }

  /** The AnkiConnect endpoint, as seen through the requests it receives. */
  class AnkiConnect {
    var requests: seq<Request>

    constructor ()
      ensures requests == []
    {
      requests := [];
    }

    /** `add_note(word, deck_name)`: sends one `addNote` request whose note
        is built for the default deck, whatever `deckName` says, and hands
        back the raw reply. */
    method AddNote(w: Word, deckName: string, response: Call<Object>) returns (r: Call<Object>)
      modifies this
      ensures requests == old(requests) + [AddNoteRequest(BuildNote(w, DefaultDeck))]
      ensures r == AddNoteResult(response)
    {
      requests := requests + [AddNoteRequest(BuildNote(w, DefaultDeck))];
      match response {
        case Raised =>
          r := Raised;
        case Returned(reply) =>
          if "error" in reply && Truthy(reply["error"]) {
            if !reply["error"].Str? {
              r := Raised;
              return;
            }
          }
          r := Returned(reply);
      }
    }

    /** `add_notes(words, deck_name)`: one `add_note` per word, in order,
        never a bulk request; the first exception ends the list and
        propagates. */
    method AddNotes(words: seq<Word>, deckName: string, responses: nat -> Call<Object>)
      returns (r: Call<seq<Object>>)
      modifies this
      ensures var k := FirstRaise(responses, 0, |words|);
        && (r.Returned? <==> k == |words|)
        && (r.Returned? ==>
              |r.value| == |words| &&
              forall i :: 0 <= i < |words| ==> r.value[i] == AddNoteResult(responses(i)).value)
        && requests == old(requests) + AddRequests(words[..if k < |words| then k + 1 else k])
    {
      ghost var log0 := requests;
      var replies: seq<Object> := [];
      var i := 0;
      while i < |words|
        invariant 0 <= i <= |words|
        invariant FirstRaise(responses, 0, |words|) >= i
        invariant |replies| == i
        invariant forall j :: 0 <= j < i ==> AddNoteResult(responses(j)) == Returned(replies[j])
        invariant requests == log0 + AddRequests(words[..i])
      {
        var reply := AddNote(words[i], deckName, responses(i));
        AddRequestsStep(log0, words, i, requests);
        if reply.Raised? {
          FirstRaiseAt(responses, |words|, i);
          return Raised;
        }
        FirstRaisePast(responses, |words|, i);
        replies := replies + [reply.value];
        i := i + 1;
      }
      assert words[..i] == words;
      r := Returned(replies);
    }

    /** `delete_note(note_id)`: an external call that reports success. */
    method DeleteNote(note: NoteRef, deleted: bool) returns (ok: bool)
      modifies this
      ensures requests == old(requests) + [DeleteNoteRequest(note)]
      ensures ok == deleted
    {
      requests := requests + [DeleteNoteRequest(note)];
      ok := deleted;
    }

    /** `sync_anki()`: asks AnkiConnect to sync the collection and returns
        the raw reply; an error in it is only reported. */
    method SyncAnki(response: Call<Object>) returns (r: Call<Object>)
      modifies this
      ensures requests == old(requests) + [SyncRequest]
      ensures r == response
    {
      requests := requests + [SyncRequest];
      r := response;
    }
  }

  /** One more `add_note` call extends the log by the next word's request. */
  lemma AddRequestsStep(log0: seq<Request>, words: seq<Word>, i: nat, log: seq<Request>)
    requires i < |words|
    requires log == log0 + AddRequests(words[..i]) + [AddNoteRequest(BuildNote(words[i], DefaultDeck))]
    ensures log == log0 + AddRequests(words[..i + 1])
  {
    assert words[..i + 1] == words[..i] + [words[i]];
    AddRequestsAppend(words[..i], words[i]);
  }

  lemma {:induction false} AddRequestsAppend(words: seq<Word>, w: Word)
    ensures AddRequests(words + [w]) == AddRequests(words) + [AddNoteRequest(BuildNote(w, DefaultDeck))]
  {
    if words == [] {
      assert [] + [w] == [w];
    } else {
      assert (words + [w])[1..] == words[1..] + [w];
      AddRequestsAppend(words[1..], w);
    }
  }
}
