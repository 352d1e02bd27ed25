/** word.py: the `Word` record, the `WordList` a model reply carries, and
    the HTML rendering shown to the user. */
module Words {
  import opened Wrappers
  import opened Text

  /** One vocabulary entry. word.py declares every field but `synonyms` and
      `level`; the store reads and writes both, so the record carries the
      union of the two field lists. */
  datatype Word = Word(
    dutch: string,
    translation: string,
    definitionNl: string,
    definitionEn: string,
    pronunciation: string,
    grammar: string,
    collocations: seq<string>,
    synonyms: seq<string>,
    examplesNl: seq<string>,
    examplesEn: seq<string>,
    etymology: string,
    related: seq<string>,
    level: string)

  /** The structured reply of the language model: entries plus optional
      commentary for the user. */
  datatype WordList = WordList(words: seq<Word>, context: Option<string>)

  /** `list(zip(xs, ys))`: pairs by position, as long as the shorter list. */
  function Zip<A, B>(xs: seq<A>, ys: seq<B>): (r: seq<(A, B)>)
    ensures |r| == if |xs| <= |ys| then |xs| else |ys|
    ensures forall i :: 0 <= i < |r| ==> r[i] == (xs[i], ys[i])
  {
    if xs == [] || ys == [] then [] else [(xs[0], ys[0])] + Zip(xs[1..], ys[1..])
  }

  /** `f"{nl} ({en})"` for one example pair. */
  function ExampleText(pair: (string, string)): string
  {
    pair.0 + " (" + pair.1 + ")"
  }

  /** The example pairs rendered back to back, with no separator. */
  function ExamplesHtml(nl: seq<string>, en: seq<string>): string
  {
    var pairs := Zip(nl, en);
    Concat(seq(|pairs|, i requires 0 <= i < |pairs| => ExampleText(pairs[i])))
  }

  /** The nine lines of `word_to_html`, in order. */
  function HtmlLines(w: Word): seq<string>
  {
    [ "<b>" + w.dutch + "</b>",
      "<b>Translation:</b> " + w.translation,
      "<b>Definition:</b> " + w.definitionNl + " (" + w.definitionEn + ")",
      "<b>Pronunciation:</b> " + w.pronunciation,
      "<b>Grammar:</b> " + w.grammar,
      "<b>Collocations:</b> " + Join(w.collocations, ", "),
      "<b>Etymology:</b> " + w.etymology,
      "<b>Related:</b> " + Join(w.related, ", "),
      "<i>" + ExamplesHtml(w.examplesNl, w.examplesEn) + "</i>" ]
  }

  /** `word_to_html(word)`. */
  function WordToHtml(w: Word): string
  {
    Join(HtmlLines(w), "\n")
  }

  /** No shown field of the word holds a line break. */
  predicate SingleLine(w: Word)
  {
    && '\n' !in w.dutch && '\n' !in w.translation && '\n' !in w.definitionNl
    && '\n' !in w.definitionEn && '\n' !in w.pronunciation && '\n' !in w.grammar
    && '\n' !in w.etymology
    && NoBreaks(w.collocations) && NoBreaks(w.related)
    && NoBreaks(w.examplesNl) && NoBreaks(w.examplesEn)
  }

  predicate NoBreaks(xs: seq<string>)
  {
    forall i :: 0 <= i < |xs| ==> '\n' !in xs[i]
  }

  /** A join of break-free parts with a break-free separator has no break. */
  lemma {:induction false} JoinNoBreak(parts: seq<string>, sep: string)
    requires NoBreaks(parts) && '\n' !in sep
    ensures '\n' !in Join(parts, sep)
  {
    if |parts| > 1 {
      JoinNoBreak(parts[1..], sep);
    }
  }

  lemma {:induction false} ConcatNoBreak(parts: seq<string>)
    requires NoBreaks(parts)
    ensures '\n' !in Concat(parts)
  {
    if parts != [] {
      ConcatNoBreak(parts[1..]);
    }
  }

  /** For a word whose fields hold no line break, the rendering is exactly
      nine lines: the headword in bold first, the collocations and related
      terms each joined with ", ", and the example pairs in italics last. */
  lemma WordToHtmlShape(w: Word)
    requires SingleLine(w)
    ensures var lines := Split(WordToHtml(w), '\n');
      && |lines| == 9
      && lines[0] == "<b>" + w.dutch + "</b>"
      && lines[5] == "<b>Collocations:</b> " + Join(w.collocations, ", ")
      && lines[7] == "<b>Related:</b> " + Join(w.related, ", ")
      && lines[8] == "<i>" + ExamplesHtml(w.examplesNl, w.examplesEn) + "</i>"
  {
    HtmlLinesNoBreak(w);
    SplitJoin(HtmlLines(w), '\n');
  }

  lemma HtmlLinesNoBreak(w: Word)
    requires SingleLine(w)
    ensures NoBreaks(HtmlLines(w))
  {
    JoinNoBreak(w.collocations, ", ");
    JoinNoBreak(w.related, ", ");
    ExamplesNoBreak(w.examplesNl, w.examplesEn);
    var lines := HtmlLines(w);
    forall i | 0 <= i < 9 ensures '\n' !in lines[i] {
    }
  }

  lemma ExamplesNoBreak(nl: seq<string>, en: seq<string>)
    requires NoBreaks(nl) && NoBreaks(en)
    ensures '\n' !in ExamplesHtml(nl, en)
  {
    var pairs := Zip(nl, en);
    var texts := seq(|pairs|, i requires 0 <= i < |pairs| => ExampleText(pairs[i]));
    forall i | 0 <= i < |texts| ensures '\n' !in texts[i] {
      assert texts[i] == nl[i] + " (" + en[i] + ")";
    }
    ConcatNoBreak(texts);
  }

  /** The examples are paired by position: the i-th Dutch sentence goes with
      the i-th English one, and whatever the longer list has beyond the
      shorter one is dropped. */
  lemma ExamplesPairedByPosition(nl: seq<string>, en: seq<string>)
    ensures var m := if |nl| <= |en| then |nl| else |en|;
      && ExamplesHtml(nl, en) == Concat(seq(m, i requires 0 <= i < m => nl[i] + " (" + en[i] + ")"))
      && ExamplesHtml(nl, en) == ExamplesHtml(nl[..m], en[..m])
  {
    var m := if |nl| <= |en| then |nl| else |en|;
    var pairs := Zip(nl, en);
    assert Zip(nl[..m], en[..m]) == pairs;
    assert seq(|pairs|, i requires 0 <= i < |pairs| => ExampleText(pairs[i]))
        == seq(m, i requires 0 <= i < m => nl[i] + " (" + en[i] + ")");
  }

  // ------------------------------------------------- the declared attributes

  /** The attributes word.py declares on `Word`. */
  const DeclaredAttributes: set<string> :=
    {"dutch", "translation", "definition_nl", "definition_en", "pronunciation", "grammar",
     "collocations", "examples_nl", "examples_en", "etymology", "related"}

  /** The attributes the `Word` above carries: the declared ones plus the
      two the store reads and writes. */
  const RecordAttributes: set<string> := DeclaredAttributes + {"synonyms", "level"}

  /** The attributes `_word_to_dict` reads, in order. */
  const StoredAttributes: seq<string> :=
    ["dutch", "translation", "definition_nl", "definition_en", "pronunciation", "grammar",
     "collocations", "synonyms", "examples_nl", "examples_en", "etymology", "related", "level"]

  /** Reading the attributes `accessed` in order from an object with attributes `declared`:
      the first missing one, whose access raises AttributeError, if any. */
  function FirstMissing(declared: set<string>, accessed: seq<string>): (r: Option<string>)
    ensures r.None? <==> forall i :: 0 <= i < |accessed| ==> accessed[i] in declared
    ensures r.Some? ==> r.value in accessed && r.value !in declared
  {
    if accessed == [] then None
    else if accessed[0] !in declared then Some(accessed[0])
    else FirstMissing(declared, accessed[1..])
  }

  /** As declared in word.py, converting any word for storage raises on
      `word.synonyms`, so `save_word` can never succeed. */
  lemma DeclaredWordCannotBeStored()
    ensures FirstMissing(DeclaredAttributes, StoredAttributes) == Some("synonyms")
  {
    assert StoredAttributes[0] in DeclaredAttributes && StoredAttributes[1] in DeclaredAttributes;
    assert StoredAttributes[2] in DeclaredAttributes && StoredAttributes[3] in DeclaredAttributes;
    assert StoredAttributes[4] in DeclaredAttributes && StoredAttributes[5] in DeclaredAttributes;
    assert StoredAttributes[6] in DeclaredAttributes && StoredAttributes[7] !in DeclaredAttributes;
    assert StoredAttributes[1..][1..][1..][1..][1..][1..][1..] == StoredAttributes[7..];
  }

  /** With the two fields the store uses, every attribute the conversion
      reads exists. */
  lemma RecordWordCanBeStored()
    ensures FirstMissing(RecordAttributes, StoredAttributes) == None
  {
    forall i | 0 <= i < |StoredAttributes| ensures StoredAttributes[i] in RecordAttributes {
    }
  }
}
