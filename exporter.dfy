/**
 * The export serialiser (`downloadFlashcardsData`): one line
 * `term;definition;hint;difficultyLevel` per card, joined with `\n`, with an
 * absent hint or level written as the empty string and the colour and edit
 * fields left out. An empty collection is refused and produces nothing.
 */
module Exporter {
  import opened Wrappers
  import opened JsString
  import opened Palette
  import opened Flashcards
  import opened RecordParser

  /** `card.hint || ''`. */
  function HintField(h: Option<string>): string {
    if h.Some? then h.value else ""
  }

  /** `card.difficultyLevel || ''`: the level in decimal, or nothing. */
  function LevelField(l: Option<Level>): string {
    if l.Some? then NatToString(l.value) else ""
  }

  /** One exported line. */
  function ExportLine(c: Content): string {
    c.term + ";" + c.definition + ";" + HintField(c.hint) + ";" + LevelField(c.difficultyLevel)
  }

  /** The exported lines, one per card, in collection order. */
  function ExportLines(cards: seq<Flashcard>): (r: seq<string>)
    ensures |r| == |cards|
    ensures forall k :: 0 <= k < |cards| ==> r[k] == ExportLine(ContentOf(cards[k]))
  {
    seq(|cards|, k requires 0 <= k < |cards| => ExportLine(ContentOf(cards[k])))
  }

  /** The file content, or `None` ("No flashcards to download.") for an empty
    * collection. */
  function Export(cards: seq<Flashcard>): (r: Option<string>)
    ensures r.None? <==> cards == []
  {
    if cards == [] then None else Some(Join(ExportLines(cards), '\n'))
  }

  /** `x` occurs in none of the exported fields of `c`. */
  predicate FieldsAvoid(c: Content, x: char) {
    && x !in c.term && x !in c.definition
    && (c.hint.Some? ==> x !in c.hint.value)
  }

  /** What a card must satisfy to survive export and re-import unchanged: the
    * fields a parsed card has (non-empty, trimmed term and definition, a
    * non-empty trimmed hint when present), and no `;` or `\n` inside a field,
    * since the format has no escaping. */
  predicate Exportable(c: Content) {
    WellFormed(c) && FieldsAvoid(c, ';') && FieldsAvoid(c, '\n')
  }

  /** The printed level is digits only: no separator, no whitespace. */
  lemma LevelFieldPlain(l: Option<Level>)
    ensures ';' !in LevelField(l) && '\n' !in LevelField(l)
    ensures IsTrimmed(LevelField(l))
  {
    var s := LevelField(l);
    if l.Some? {
      assert forall i :: 0 <= i < |s| ==> IsDigit(s[i]);
    }
  }

  /** A line splits on `;` into exactly the four fields that were written. */
  lemma ExportLineFields(c: Content)
    requires FieldsAvoid(c, ';')
    ensures Split(ExportLine(c), ';')
            == [c.term, c.definition, HintField(c.hint), LevelField(c.difficultyLevel)]
  {
    LevelFieldPlain(c.difficultyLevel);
    JoinFour(c.term, c.definition, HintField(c.hint), LevelField(c.difficultyLevel), ';');
    SplitJoin([c.term, c.definition, HintField(c.hint), LevelField(c.difficultyLevel)], ';');
  }

  /** An exportable card's line reads back, in the import dialect, as the
    * same term, definition, hint and level. */
  lemma ImportOfExportLine(c: Content)
    requires Exportable(c)
    ensures ImportLine(ExportLine(c)) == Some(c)
  {
    var h, l := HintField(c.hint), LevelField(c.difficultyLevel);
    LevelFieldPlain(c.difficultyLevel);
    ImportOfTrimmedFields(c.term, c.definition, h, l);
    if c.difficultyLevel.Some? {
      LevelOfDecimal(c.difficultyLevel.value);
    }
  }

  /** With no `\n` inside a field, the file holds one line per card. */
  lemma ExportOneLinePerCard(cards: seq<Flashcard>)
    requires cards != []
    requires forall k :: 0 <= k < |cards| ==> FieldsAvoid(ContentOf(cards[k]), '\n')
    ensures Split(Export(cards).value, '\n') == ExportLines(cards)
  {
    var lines := ExportLines(cards);
    forall k | 0 <= k < |lines|
      ensures '\n' !in lines[k]
    {
      LevelFieldPlain(cards[k].difficultyLevel);
    }
    SplitJoin(lines, '\n');
  }

  /** Importing an export gives back, card for card and in order, the same
    * term, definition, hint and level (colour and id are drawn afresh). */
  lemma ImportAfterExport(cards: seq<Flashcard>, clock: nat -> nat, color: ColorIndex)
    requires cards != []
    requires forall k :: 0 <= k < |cards| ==> Exportable(ContentOf(cards[k]))
    ensures |ParseText(Import, Export(cards).value, clock, color).cards| == |cards|
    ensures forall k :: 0 <= k < |cards| ==>
              ContentOf(ParseText(Import, Export(cards).value, clock, color).cards[k])
              == ContentOf(cards[k])
  {
    var lines := ExportLines(cards);
    ExportOneLinePerCard(cards);
    forall i | 0 <= i < |lines|
      ensures ImportLine(lines[i]) == Some(ContentOf(cards[i]))
    {
      ImportOfExportLine(ContentOf(cards[i]));
    }
    ParseLinesAllAccepted(ImportLine, IdPrefix(Import), lines, 0, clock, color);
  }

  /** Export sees only the four content fields: colour, id and edit state do
    * not reach the file. */
  lemma ExportSeesContentOnly(cards1: seq<Flashcard>, cards2: seq<Flashcard>)
    requires |cards1| == |cards2|
    requires forall k :: 0 <= k < |cards1| ==> ContentOf(cards1[k]) == ContentOf(cards2[k])
    ensures Export(cards1) == Export(cards2)
  {
    assert ExportLines(cards1) == ExportLines(cards2);
  }
}
