/**
 * The session as the source keeps it: card objects updated in place, and the
 * two globals `flashcardsData` (an array of card objects) and
 * `currentColorIndex`. Each method is proved to leave the session in the
 * state the pure transitions of `Editing` and `Outcomes` describe.
 */
module Store {
  import opened Wrappers
  import opened JsString
  import opened Palette
  import opened Flashcards
  import opened RecordParser
  import opened Exporter
  import opened Editing
  import opened Outcomes

  /** A flashcard object. `id` and `color` are set when the card is made and
    * never written again; the other fields are assigned by the edit flows. */
  class Card {
    const id: string
    var term: string
    var definition: string
    var hint: Option<string>
    const color: string
    var difficultyLevel: Option<Level>
    var isEditing: bool
    var originalTerm: Option<string>
    var originalDefinition: Option<string>
    var originalHint: Option<string>
    var originalDifficultyLevel: Option<Level>

    /** The card's current value. */
    function Value(): Flashcard
      reads this
    {
      Flashcard(id, term, definition, hint, color, difficultyLevel, isEditing,
                originalTerm, originalDefinition, originalHint, originalDifficultyLevel)
    }

    /** The writes `toggleEditMode` makes to the card it found. */
    method Toggle()
      modifies this
      ensures Value() == Toggled(old(Value()))
    {
      isEditing := !isEditing;
      if isEditing {
        originalTerm := Some(term);
        originalDefinition := Some(definition);
        originalHint := hint;
        originalDifficultyLevel := difficultyLevel;
      }
    }

    /** The writes `saveFlashcard` makes to the editing card it found: the
      * form's values first, then, when term and definition are not empty,
      * the end of editing. */
    method Save(input: FormInput) returns (status: SaveStatus)
      requires isEditing && IsDifficultyOption(input.difficulty)
      modifies this
      ensures Value() == Saved(old(Value()), input)
      ensures status == SaveStatusOf(old(Value()), input)
    {
      term := Trim(input.term);
      definition := Trim(input.definition);
      var h := Trim(input.hint);
      hint := if h != "" then Some(h) else None;
      difficultyLevel := SelectedDifficulty(input.difficulty);
      assert Value() == Written(old(Value()), input);
      if term == "" || definition == "" {
        status := Rejected;
        return;
      }
      isEditing := false;
      originalTerm := None;
      originalDefinition := None;
      originalHint := None;
      originalDifficultyLevel := None;
      status := Committed;
    }

    /** The writes `cancelEdit` makes to the editing card it found. */
    method Cancel()
      requires isEditing
      modifies this
      ensures Value() == Cancelled(old(Value()))
    {
      term := if originalTerm.Some? then originalTerm.value else term;
      definition := if originalDefinition.Some? then originalDefinition.value else definition;
      hint := if originalHint.Some? then originalHint else hint;
      difficultyLevel := if originalDifficultyLevel.Some? then originalDifficultyLevel else difficultyLevel;
      isEditing := false;
      originalTerm := None;
      originalDefinition := None;
      originalHint := None;
      originalDifficultyLevel := None;
    }

    constructor (f: Flashcard)
      ensures Value() == f
    {
      id, term, definition, hint, color := f.id, f.term, f.definition, f.hint, f.color;
      difficultyLevel, isEditing := f.difficultyLevel, f.isEditing;
      originalTerm, originalDefinition := f.originalTerm, f.originalDefinition;
      originalHint, originalDifficultyLevel := f.originalHint, f.originalDifficultyLevel;
    }
  }

  /** Fresh card objects holding `batch`, in order (the object literals the
    * parsers return). */
  method NewCards(batch: seq<Flashcard>) returns (objs: seq<Card>)
    ensures |objs| == |batch|
    ensures forall k :: 0 <= k < |batch| ==> fresh(objs[k]) && objs[k].Value() == batch[k]
    ensures forall k1, k2 :: 0 <= k1 < k2 < |objs| ==> objs[k1] != objs[k2]
  {
    objs := [];
    for i := 0 to |batch|
      invariant |objs| == i
      invariant forall k :: 0 <= k < i ==> fresh(objs[k]) && objs[k].Value() == batch[k]
      invariant forall k1, k2 :: 0 <= k1 < k2 < i ==> objs[k1] != objs[k2]
    {
      var card := new Card(batch[i]);
      objs := objs + [card];
    }
  }

  class Session {
    var flashcardsData: seq<Card>
    var currentColorIndex: ColorIndex

    /** No card object appears twice in the collection, so writing one card
      * changes one entry. */
    ghost predicate Valid()
      reads this
    {
      forall i, j :: 0 <= i < j < |flashcardsData| ==> flashcardsData[i] != flashcardsData[j]
    }

    /** The values of the cards, in collection order. */
    function Cards(): (r: seq<Flashcard>)
      reads this, flashcardsData
      ensures |r| == |flashcardsData|
      ensures forall k :: 0 <= k < |flashcardsData| ==> r[k] == flashcardsData[k].Value()
    {
      seq(|flashcardsData|, k reads this, flashcardsData requires 0 <= k < |flashcardsData| =>
            flashcardsData[k].Value())
    }

    function State(): Deck
      reads this, flashcardsData
    {
      Deck(Cards(), currentColorIndex)
    }

    /** The page starts with no cards and the palette at its first colour. */
    constructor ()
      ensures Valid() && Cards() == [] && currentColorIndex == 0
    {
      flashcardsData, currentColorIndex := [], 0;
    }

    /** `getNextCardColor`: hands out the colour at the current position and
      * moves the position on by one, wrapping after the last. It stands alone
      * here: the batch methods thread the same position through
      * `Palette.Advance` (see `RecordParser.BatchAdvancesColor`). */
    method GetNextCardColor() returns (color: string)
      modifies this
      ensures color == ColorAt(old(currentColorIndex))
      ensures currentColorIndex == NextColorIndex(old(currentColorIndex))
      ensures flashcardsData == old(flashcardsData)
    {
      color := CardColorsLight[currentColorIndex];
      currentColorIndex := (currentColorIndex + 1) % |CardColorsLight|;
    }

    /** `flashcardsData.find(c => c.id === id)`, as the position of the first
      * match, or the length when there is none. */
    method FindCard(id: string) returns (i: nat)
      ensures i == FirstIndex(Cards(), id)
    {
      i := 0;
      while i < |flashcardsData| && flashcardsData[i].id != id
        invariant i <= |flashcardsData|
        invariant forall j :: 0 <= j < i ==> flashcardsData[j].id != id
      {
        i := i + 1;
      }
      var cards := Cards();
      assert forall j :: 0 <= j < i ==> cards[j].id != id;
      assert i < |cards| ==> cards[i].id == id;
    }

    /** `toggleEditMode(id)`. */
    method ToggleEditMode(id: string)
      requires Valid()
      modifies flashcardsData
      ensures Valid()
      ensures Cards() == ToggleAt(old(Cards()), id)
    {
      var i := FindCard(id);
      if i < |flashcardsData| {
        flashcardsData[i].Toggle();
      }
      assert Cards() == ToggleAt(old(Cards()), id) by {
        UpdateFirstFrame(old(Cards()), id, Toggled);
      }
    }

    /** `saveFlashcard(id)`, with the form's values as `input`. */
    method SaveFlashcard(id: string, input: FormInput) returns (status: SaveStatus)
      requires Valid() && IsDifficultyOption(input.difficulty)
      modifies flashcardsData
      ensures Valid()
      ensures Cards() == SaveAt(old(Cards()), id, input)
      ensures status == SaveStatusAt(old(Cards()), id, input)
    {
      var i := FindCard(id);
      if i < |flashcardsData| && flashcardsData[i].isEditing {
        status := flashcardsData[i].Save(input);
      } else {
        status := NotEditing;
      }
      assert Cards() == SaveAt(old(Cards()), id, input) by {
        UpdateFirstFrame(old(Cards()), id, c requires IsDifficultyOption(input.difficulty) => Saved(c, input));
      }
    }

    /** `cancelEdit(id)`. */
    method CancelEdit(id: string)
      requires Valid()
      modifies flashcardsData
      ensures Valid()
      ensures Cards() == CancelAt(old(Cards()), id)
    {
      var i := FindCard(id);
      if i < |flashcardsData| && flashcardsData[i].isEditing {
        flashcardsData[i].Cancel();
      }
      assert Cards() == CancelAt(old(Cards()), id) by {
        UpdateFirstFrame(old(Cards()), id, Cancelled);
      }
    }

    /** `callGeminiForFlashcards(content, count, ...)`, with the service `ai`. */
    method CallGeminiForFlashcards(content: string, count: int, ai: Request -> Reply,
                                   clock: nat -> nat) returns (outcome: Outcome)
      requires Valid()
      modifies this
      ensures Valid()
      ensures State() == AfterReply(old(State()), ai(Request(content, count)), clock).deck
      ensures outcome == AfterReply(old(State()), ai(Request(content, count)), clock).outcome
    {
      var reply := ai(Request(content, count));
      match reply
      case Threw(message) =>
        outcome := GenerationFailed(if message == "" then "An unknown error occurred" else message);
      case Answered(text) =>
        if text == "" {
          outcome := EmptyResponse;
        } else {
          var batch := ParseText(Generation, text, clock, currentColorIndex);
          currentColorIndex := batch.nextColor;
          if |batch.cards| > 0 {
            var objs := NewCards(batch.cards);
            flashcardsData := objs;
            outcome := Generated(|objs|);
          } else {
            outcome := NoValidCards;
          }
        }
    }

    /** The generate button, with the topic and count fields as inputs. */
    method GenerateFromTopic(topic: string, countInput: string, ai: Request -> Reply,
                             clock: nat -> nat) returns (outcome: Outcome)
      requires Valid()
      modifies this
      ensures Valid()
      ensures State() == AfterTopic(old(State()), topic, countInput, ai, clock).deck
      ensures outcome == AfterTopic(old(State()), topic, countInput, ai, clock).outcome
    {
      var t := Trim(topic);
      if t == "" {
        outcome := MissingTopic;
      } else {
        var count := RequestedCount(countInput);
        outcome := CallGeminiForFlashcards(t, count, ai, clock);
      }
    }

    /** Generate from a chosen file: `text` is what `file.text()` returns and
      * `pdfText` what the PDF extractor returns. */
    method GenerateFromFile(name: string, text: string, pdfText: string, countInput: string,
                            ai: Request -> Reply, clock: nat -> nat) returns (outcome: Outcome)
      requires Valid()
      modifies this
      ensures Valid()
      ensures State() == AfterFile(old(State()), name, text, pdfText, countInput, ai, clock).deck
      ensures outcome == AfterFile(old(State()), name, text, pdfText, countInput, ai, clock).outcome
    {
      var fileContent := "";
      if EndsWith(name, ".txt") {
        fileContent := text;
      } else if EndsWith(name, ".pdf") {
        fileContent := pdfText;
      } else {
        outcome := UnsupportedFile;
        return;
      }
      if Trim(fileContent) == "" {
        outcome := EmptyFile;
        return;
      }
      var count := RequestedCount(countInput);
      outcome := CallGeminiForFlashcards(fileContent, count, ai, clock);
    }

    /** Import a chosen file whose content is `text`. */
    method ImportFile(name: string, text: string, clock: nat -> nat) returns (outcome: Outcome)
      requires Valid()
      modifies this
      ensures Valid()
      ensures State() == AfterImport(old(State()), name, text, clock).deck
      ensures outcome == AfterImport(old(State()), name, text, clock).outcome
    {
      if !(EndsWith(name, ".txt") || EndsWith(name, ".csv")) {
        outcome := UnsupportedFile;
        return;
      }
      ghost var before := Cards();
      var batch := ParseText(Import, text, clock, currentColorIndex);
      currentColorIndex := batch.nextColor;
      if |batch.cards| > 0 {
        var objs := NewCards(batch.cards);
        var kept := flashcardsData;
        assert forall k :: 0 <= k < |kept| ==> kept[k].Value() == before[k];
        flashcardsData := kept + objs;
        forall k | 0 <= k < |flashcardsData|
          ensures Cards()[k] == (before + batch.cards)[k]
        {
          if k < |kept| {
            assert flashcardsData[k] == kept[k];
          } else {
            assert flashcardsData[k] == objs[k - |kept|];
          }
        }
        assert Cards() == before + batch.cards;
        outcome := Imported(|objs|);
      } else {
        outcome := NoValidCards;
      }
    }

    /** `downloadFlashcardsData`: the file content, or `None` when there is
      * nothing to download. */
    method DownloadFlashcardsData() returns (content: Option<string>)
      ensures content == Export(Cards())
      ensures content.None? <==> flashcardsData == []
    {
      if |flashcardsData| == 0 {
        return None;
      }
      var cards := Cards();
      content := Some(Join(ExportLines(cards), '\n'));
    }
  }
}
