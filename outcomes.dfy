/**
 * What the generation and import flows do to the collection once their
 * input is known: the reply of the generation service, or the text of the
 * imported file. A generation that yields cards replaces the collection, one
 * that yields none leaves it as it was; an import appends what it yields.
 * The palette position moves by one per card made. Also the card-count
 * default and the file-name routing.
 *
 * The generation service is a function from a request to a reply: the prompt
 * text around the content and the count is left out.
 */
module Outcomes {
  import opened Wrappers
  import opened JsString
  import opened Palette
  import opened Flashcards
  import opened RecordParser
  import opened Editing

  /** The session's state: `flashcardsData` and `currentColorIndex`. */
  datatype Deck = Deck(cards: seq<Flashcard>, color: ColorIndex)

  /** What is sent to the generation service. */
  datatype Request = Request(content: string, count: int)

  /** What comes back: an exception with its message (an error without a
    * message has the empty one: both are falsy), or a response text (an
    * undefined `result.text` is the empty text, for the same reason). */
  datatype Reply = Threw(message: string) | Answered(text: string)

  /** What the user is told. */
  datatype Outcome =
    | Generated(generated: nat)
    | NoValidCards
    | EmptyResponse
    | GenerationFailed(message: string)
    | MissingTopic
    | UnsupportedFile
    | EmptyFile
    | Imported(imported: nat)

  datatype Step = Step(deck: Deck, outcome: Outcome)

  // ---------------------------------------------------------------------------
  // Count and routing
  // ---------------------------------------------------------------------------

  /** `parseInt(value, 10) || 10`: NaN and 0 are falsy; a negative count is
    * passed through. */
  function RequestedCount(v: string): int {
    match ParseInt(v)
    case Some(n) => if n != 0 then n else 10
    case None => 10
  }

  /** The count is never 0: the one a number in the field names when it is
    * not 0, and 10 otherwise. */
  lemma RequestedCountSpec(v: string)
    ensures RequestedCount(v) != 0
    ensures ParseInt(v).Some? && ParseInt(v).value != 0 ==> RequestedCount(v) == ParseInt(v).value
    ensures ParseInt(v).None? || ParseInt(v) == Some(0) ==> RequestedCount(v) == 10
  {
  }

  /** A positive number typed in the field is the count; an empty field
    * and `0` give 10. */
  lemma RequestedCountOfDecimal(n: nat)
    ensures RequestedCount(NatToString(n)) == if n == 0 then 10 else n
    ensures RequestedCount("") == 10
  {
    ParseIntOfNatToString(n);
    assert TrimStart("") == "";
  }

  datatype GenerationSource = TextSource | PdfSource | NoSource

  /** The generate-from-file routing: `.txt` is read as text, `.pdf` through
    * the PDF extractor, anything else is refused. */
  function GenerationSourceOf(name: string): GenerationSource {
    if EndsWith(name, ".txt") then TextSource
    else if EndsWith(name, ".pdf") then PdfSource
    else NoSource
  }

  /** The import routing: `.txt` and `.csv` are read, anything else refused. */
  predicate ImportAccepts(name: string) {
    EndsWith(name, ".txt") || EndsWith(name, ".csv")
  }

  /** Generate-from-file routes a name by its extension alone: appending
    * `.txt` or `.pdf` to any stem picks that reader, and `.csv` is refused. */
  lemma GenerationRoutingByExtension(stem: string)
    ensures GenerationSourceOf(stem + ".txt") == TextSource
    ensures GenerationSourceOf(stem + ".pdf") == PdfSource
    ensures GenerationSourceOf(stem + ".csv") == NoSource
  {
    var t, p, c := stem + ".txt", stem + ".pdf", stem + ".csv";
    assert t[|t| - 4..] == ".txt" && p[|p| - 4..] == ".pdf" && c[|c| - 4..] == ".csv";
  }

  /** Import routes a name by its extension alone: any stem with `.txt` or
    * `.csv` is read, and with `.pdf` is refused. */
  lemma ImportRoutingByExtension(stem: string)
    ensures ImportAccepts(stem + ".txt") && ImportAccepts(stem + ".csv")
    ensures !ImportAccepts(stem + ".pdf")
  {
    var t, p, c := stem + ".txt", stem + ".pdf", stem + ".csv";
    assert t[|t| - 4..] == ".txt" && p[|p| - 4..] == ".pdf" && c[|c| - 4..] == ".csv";
  }

  // ---------------------------------------------------------------------------
  // Generation and import
  // ---------------------------------------------------------------------------

  /** `callGeminiForFlashcards` from the reply on: a thrown error or an empty
    * text changes nothing; otherwise the text is parsed, and the cards
    * replace the collection when there is at least one. */
  function AfterReply(d: Deck, reply: Reply, clock: nat -> nat): Step {
    match reply
    case Threw(message) =>
      Step(d, GenerationFailed(if message == "" then "An unknown error occurred" else message))
    case Answered(text) =>
      if text == "" then Step(d, EmptyResponse)
      else
        var batch := ParseText(Generation, text, clock, d.color);
        if |batch.cards| > 0 then Step(Deck(batch.cards, batch.nextColor), Generated(|batch.cards|))
        else Step(Deck(d.cards, batch.nextColor), NoValidCards)
  }

  /** The generate button: a blank topic is refused before any request;
    * otherwise the trimmed topic is sent with the requested count. */
  function AfterTopic(d: Deck, topic: string, countInput: string, ai: Request -> Reply,
                      clock: nat -> nat): Step {
    var t := Trim(topic);
    if t == "" then Step(d, MissingTopic)
    else AfterReply(d, ai(Request(t, RequestedCount(countInput))), clock)
  }

  /** Generate from a file: the name picks the reader (`text` for `.txt`,
    * `pdfText`, what the PDF extractor returns, for `.pdf`); a blank
    * content is refused; otherwise the content is sent as it was read. */
  function AfterFile(d: Deck, name: string, text: string, pdfText: string, countInput: string,
                     ai: Request -> Reply, clock: nat -> nat): Step {
    var source := GenerationSourceOf(name);
    if source == NoSource then Step(d, UnsupportedFile)
    else
      var content := if source == TextSource then text else pdfText;
      if Trim(content) == "" then Step(d, EmptyFile)
      else AfterReply(d, ai(Request(content, RequestedCount(countInput))), clock)
  }

  /** Import a file: the name must end in `.txt` or `.csv`; the cards the text
    * yields are appended when there is at least one. */
  function AfterImport(d: Deck, name: string, text: string, clock: nat -> nat): Step {
    if !ImportAccepts(name) then Step(d, UnsupportedFile)
    else
      var batch := ParseText(Import, text, clock, d.color);
      if |batch.cards| > 0 then
        Step(Deck(d.cards + batch.cards, batch.nextColor), Imported(|batch.cards|))
      else Step(Deck(d.cards, batch.nextColor), NoValidCards)
  }

  /** Generation keeps the collection unless it produced cards, and then the
    * collection is exactly the parsed batch; the palette moves by one per
    * card parsed. */
  lemma GenerationReplacesOrKeeps(d: Deck, reply: Reply, clock: nat -> nat)
    ensures var s := AfterReply(d, reply, clock);
            s.outcome.Generated? <==>
              reply.Answered? && reply.text != ""
              && |ParseText(Generation, reply.text, clock, d.color).cards| > 0
    ensures AfterReply(d, reply, clock).outcome.Generated? ==>
              && AfterReply(d, reply, clock).deck.cards
                 == ParseText(Generation, reply.text, clock, d.color).cards
              && AfterReply(d, reply, clock).outcome.generated
                 == |AfterReply(d, reply, clock).deck.cards|
    ensures !AfterReply(d, reply, clock).outcome.Generated? ==>
              AfterReply(d, reply, clock).deck.cards == d.cards
    ensures reply.Answered? && reply.text != "" ==>
              AfterReply(d, reply, clock).deck.color
              == (d.color + |ParseText(Generation, reply.text, clock, d.color).cards|) % 15
    ensures !(reply.Answered? && reply.text != "") ==> AfterReply(d, reply, clock).deck == d
  {
    if reply.Answered? && reply.text != "" {
      BatchAdvancesColor(Generation, reply.text, clock, d.color);
    }
  }

  /** A successful generation forgets the collection it replaced: from the
    * same palette position, any two collections end the same. */
  lemma GenerationForgetsPrevious(d1: Deck, d2: Deck, reply: Reply, clock: nat -> nat)
    requires d1.color == d2.color
    requires AfterReply(d1, reply, clock).outcome.Generated?
    ensures AfterReply(d1, reply, clock) == AfterReply(d2, reply, clock)
  {
  }

  /** Import always leaves the old collection as a prefix and adds exactly the
    * parsed batch after it, moving the palette by one per card added. */
  lemma ImportAppends(d: Deck, name: string, text: string, clock: nat -> nat)
    requires ImportAccepts(name)
    ensures AfterImport(d, name, text, clock).deck.cards
            == d.cards + ParseText(Import, text, clock, d.color).cards
    ensures AfterImport(d, name, text, clock).deck.color
            == (d.color + |ParseText(Import, text, clock, d.color).cards|) % 15
    ensures AfterImport(d, name, text, clock).outcome ==
              if |ParseText(Import, text, clock, d.color).cards| > 0
              then Imported(|ParseText(Import, text, clock, d.color).cards|)
              else NoValidCards
  {
    BatchAdvancesColor(Import, text, clock, d.color);
    var batch := ParseText(Import, text, clock, d.color);
    if |batch.cards| == 0 {
      assert d.cards + batch.cards == d.cards;
    }
  }

  /** Every flow keeps "an editing card holds its snapshot": the cards it
    * makes are not editing. */
  lemma FlowsKeepSnapshots(d: Deck, reply: Reply, name: string, text: string, clock: nat -> nat)
    requires AllSnapshotHeld(d.cards)
    ensures AllSnapshotHeld(AfterReply(d, reply, clock).deck.cards)
    ensures AllSnapshotHeld(AfterImport(d, name, text, clock).deck.cards)
  {
    var after := AfterImport(d, name, text, clock).deck.cards;
    forall k | 0 <= k < |after|
      ensures SnapshotHeld(after[k])
    {
      if k >= |d.cards| {
        assert after[k] == ParseText(Import, text, clock, d.color).cards[k - |d.cards|];
      }
    }
  }

  /** The generate button: the outcome is "enter a topic" exactly when the
    * topic is blank; whitespace around the topic makes no difference; the
    * collection is kept unless cards were generated; and the snapshot
    * invariant is kept. */
  lemma TopicHandler(d: Deck, topic: string, countInput: string, ai: Request -> Reply,
                     clock: nat -> nat)
    ensures AfterTopic(d, topic, countInput, ai, clock).outcome == MissingTopic <==> IsBlank(topic)
    ensures AfterTopic(d, topic, countInput, ai, clock)
            == AfterTopic(d, Trim(topic), countInput, ai, clock)
    ensures !AfterTopic(d, topic, countInput, ai, clock).outcome.Generated? ==>
              AfterTopic(d, topic, countInput, ai, clock).deck.cards == d.cards
    ensures AllSnapshotHeld(d.cards) ==>
              AllSnapshotHeld(AfterTopic(d, topic, countInput, ai, clock).deck.cards)
  {
    TrimSpec(topic);
    TrimIdempotent(topic);
    var reply := ai(Request(Trim(topic), RequestedCount(countInput)));
    GenerationReplacesOrKeeps(d, reply, clock);
    if AllSnapshotHeld(d.cards) {
      FlowsKeepSnapshots(d, reply, "", "", clock);
    }
  }

  /** Generate from a file: refused as unsupported exactly when the name has
    * neither extension, refused as empty exactly when the content its reader
    * gives is blank; the collection is kept unless cards were generated; and
    * the snapshot invariant is kept. */
  lemma FileHandler(d: Deck, name: string, text: string, pdfText: string, countInput: string,
                    ai: Request -> Reply, clock: nat -> nat)
    ensures AfterFile(d, name, text, pdfText, countInput, ai, clock).outcome == UnsupportedFile
            <==> GenerationSourceOf(name) == NoSource
    ensures AfterFile(d, name, text, pdfText, countInput, ai, clock).outcome == EmptyFile
            <==> (GenerationSourceOf(name) == TextSource && IsBlank(text))
                 || (GenerationSourceOf(name) == PdfSource && IsBlank(pdfText))
    ensures !AfterFile(d, name, text, pdfText, countInput, ai, clock).outcome.Generated? ==>
              AfterFile(d, name, text, pdfText, countInput, ai, clock).deck.cards == d.cards
    ensures AllSnapshotHeld(d.cards) ==>
              AllSnapshotHeld(AfterFile(d, name, text, pdfText, countInput, ai, clock).deck.cards)
  {
    TrimSpec(text);
    TrimSpec(pdfText);
    var content := if GenerationSourceOf(name) == TextSource then text else pdfText;
    var reply := ai(Request(content, RequestedCount(countInput)));
    GenerationReplacesOrKeeps(d, reply, clock);
    if AllSnapshotHeld(d.cards) {
      FlowsKeepSnapshots(d, reply, "", "", clock);
    }
  }
}
