/**
 * The per-card edit state machine (`toggleEditMode`, `saveFlashcard`,
 * `cancelEdit`) as transitions on card values, and their lifting to a
 * collection: each operation acts on the first card whose id matches
 * (`flashcardsData.find`) and on no other. The `Store` module performs the
 * same steps in place on card objects, proved equal to these transitions.
 */
module Editing {
  import opened Wrappers
  import opened JsString
  import opened Flashcards
  import opened RecordParser

  // ---------------------------------------------------------------------------
  // Lookup
  // ---------------------------------------------------------------------------

  /** `flashcardsData.find(c => c.id === id)`, as a position: the first card
    * with that id, or `|cards|` when there is none. */
  function FirstIndex(cards: seq<Flashcard>, id: string): (i: nat)
    ensures i <= |cards|
    ensures i < |cards| ==> cards[i].id == id
    ensures forall j :: 0 <= j < i ==> cards[j].id != id
    decreases |cards|
  {
    if cards == [] then 0
    else if cards[0].id == id then 0
    else 1 + FirstIndex(cards[1..], id)
  }

  /** The card at `FirstIndex` replaced by `f` of it; nothing else touched. */
  function UpdateFirst(cards: seq<Flashcard>, id: string, f: Flashcard -> Flashcard): seq<Flashcard> {
    var i := FirstIndex(cards, id);
    if i < |cards| then cards[i := f(cards[i])] else cards
  }

  // ---------------------------------------------------------------------------
  // The three transitions on one card
  // ---------------------------------------------------------------------------

  /** `a ?? b`. */
  function Coalesce<T>(a: Option<T>, b: T): T {
    if a.Some? then a.value else b
  }

  /** `toggleEditMode` on the card found: flip `isEditing`; when that turns
    * editing on, snapshot the four content fields. Turning it off restores
    * nothing and keeps the snapshot. */
  function Toggled(c: Flashcard): Flashcard {
    if !c.isEditing then
      c.(isEditing := true,
         originalTerm := Some(c.term), originalDefinition := Some(c.definition),
         originalHint := c.hint, originalDifficultyLevel := c.difficultyLevel)
    else
      c.(isEditing := false)
  }

  /** What the edit form holds when Save is pressed. */
  datatype FormInput = FormInput(term: string, definition: string, hint: string, difficulty: string)

  /** The values the difficulty `<select>` offers: the empty default and the
    * keys of `DIFFICULTY_LEVEL_MAP`. */
  predicate IsDifficultyOption(v: string) {
    v == "" || v == "1" || v == "2" || v == "3"
  }

  /** `value ? parseInt(value, 10) : undefined` on a `<select>` value. */
  function SelectedDifficulty(v: string): Option<Level>
    requires IsDifficultyOption(v)
  {
    if v == "" then None
    else
      var n := ParseInt(v);
      assert n.Some? && 1 <= n.value <= 3 by {
        ParseIntOfNatToString(1);
        ParseIntOfNatToString(2);
        ParseIntOfNatToString(3);
        assert NatToString(1) == "1" && NatToString(2) == "2" && NatToString(3) == "3";
      }
      Some(n.value)
  }

  /** The card after the form's values are written to it: trimmed term and
    * definition, trimmed hint or none, the selected level or none. */
  function Written(c: Flashcard, input: FormInput): Flashcard
    requires IsDifficultyOption(input.difficulty)
  {
    c.(term := Trim(input.term), definition := Trim(input.definition),
       hint := OrUndefined(Some(Trim(input.hint))),
       difficultyLevel := SelectedDifficulty(input.difficulty))
  }

  /** What `saveFlashcard` did: nothing (no editing card), kept the edit
    * open after rejecting an empty term or definition, or committed. */
  datatype SaveStatus = NotEditing | Rejected | Committed

  /** `saveFlashcard` on the card found. The values are written BEFORE they are
    * checked: a rejected save leaves them on the card, still editing, with
    * its snapshot. A committed save ends editing and deletes the snapshot. */
  function Saved(c: Flashcard, input: FormInput): Flashcard
    requires IsDifficultyOption(input.difficulty)
  {
    if !c.isEditing then c
    else
      var w := Written(c, input);
      if w.term == "" || w.definition == "" then w
      else w.(isEditing := false, originalTerm := None, originalDefinition := None,
              originalHint := None, originalDifficultyLevel := None)
  }

  function SaveStatusOf(c: Flashcard, input: FormInput): SaveStatus {
    if !c.isEditing then NotEditing
    else if Trim(input.term) == "" || Trim(input.definition) == "" then Rejected
    else Committed
  }

  /** `cancelEdit` on the card found: each field takes its snapshot value when
    * the snapshot holds one (`??`), then editing ends and the snapshot is
    * deleted. */
  function Cancelled(c: Flashcard): Flashcard {
    if !c.isEditing then c
    else
      c.(term := Coalesce(c.originalTerm, c.term),
         definition := Coalesce(c.originalDefinition, c.definition),
         hint := if c.originalHint.Some? then c.originalHint else c.hint,
         difficultyLevel :=
           if c.originalDifficultyLevel.Some? then c.originalDifficultyLevel else c.difficultyLevel,
         isEditing := false,
         originalTerm := None, originalDefinition := None,
         originalHint := None, originalDifficultyLevel := None)
  }

  // ---------------------------------------------------------------------------
  // The transitions on a collection
  // ---------------------------------------------------------------------------

  function ToggleAt(cards: seq<Flashcard>, id: string): seq<Flashcard> {
    UpdateFirst(cards, id, Toggled)
  }

  function SaveAt(cards: seq<Flashcard>, id: string, input: FormInput): seq<Flashcard>
    requires IsDifficultyOption(input.difficulty)
  {
    UpdateFirst(cards, id, c => Saved(c, input))
  }

  function SaveStatusAt(cards: seq<Flashcard>, id: string, input: FormInput): SaveStatus {
    var i := FirstIndex(cards, id);
    if i < |cards| then SaveStatusOf(cards[i], input) else NotEditing
  }

  function CancelAt(cards: seq<Flashcard>, id: string): seq<Flashcard> {
    UpdateFirst(cards, id, Cancelled)
  }

  // ---------------------------------------------------------------------------
  // Properties of one card
  // ---------------------------------------------------------------------------

  /** Entering edit mode keeps the content and snapshots it exactly; leaving
    * it by a second toggle only clears the flag. */
  lemma ToggleSnapshots(c: Flashcard)
    ensures ContentOf(Toggled(c)) == ContentOf(c)
    ensures Toggled(c).isEditing != c.isEditing
    ensures !c.isEditing ==>
              && Toggled(c).originalTerm == Some(c.term)
              && Toggled(c).originalDefinition == Some(c.definition)
              && Toggled(c).originalHint == c.hint
              && Toggled(c).originalDifficultyLevel == c.difficultyLevel
    ensures c.isEditing ==> Toggled(c) == c.(isEditing := false)
  {
  }

  /** The status names what the save did: nothing on a card that is not
    * editing, a rejection that keeps the card editing, or a commit that
    * ends editing. */
  lemma SaveStatusSpec(c: Flashcard, input: FormInput)
    requires IsDifficultyOption(input.difficulty)
    ensures SaveStatusOf(c, input) == NotEditing <==> !c.isEditing
    ensures SaveStatusOf(c, input) == NotEditing ==> Saved(c, input) == c
    ensures SaveStatusOf(c, input) == Rejected <==> c.isEditing && Saved(c, input).isEditing
    ensures SaveStatusOf(c, input) == Committed <==> c.isEditing && !Saved(c, input).isEditing
  {
  }

  /** Edit then cancel with nothing in between gives back the card as it was,
    * minus any stale snapshot. */
  lemma CancelAfterToggleRestores(c: Flashcard)
    requires !c.isEditing
    ensures Cancelled(Toggled(c)) == c.(originalTerm := None, originalDefinition := None,
                                        originalHint := None, originalDifficultyLevel := None)
  {
  }

  /** Edit then a save whose term and definition are not blank: the card holds
    * the trimmed form values and no edit state. */
  lemma SaveAfterToggleCommits(c: Flashcard, input: FormInput)
    requires !c.isEditing && IsDifficultyOption(input.difficulty)
    requires Trim(input.term) != "" && Trim(input.definition) != ""
    ensures SaveStatusOf(Toggled(c), input) == Committed
    ensures var s := Saved(Toggled(c), input);
            && ContentOf(s) == Content(Trim(input.term), Trim(input.definition),
                                       OrUndefined(Some(Trim(input.hint))),
                                       SelectedDifficulty(input.difficulty))
            && !s.isEditing && NoSnapshot(s)
            && s.id == c.id && s.color == c.color
  {
  }

  /** A save whose term and definition are not blank, on any editing card
    * (just toggled, or after earlier rejected saves): the card holds the
    * trimmed form values, and editing and its snapshot are gone. */
  lemma SaveCommits(c: Flashcard, input: FormInput)
    requires c.isEditing && IsDifficultyOption(input.difficulty)
    requires Trim(input.term) != "" && Trim(input.definition) != ""
    ensures SaveStatusOf(c, input) == Committed
    ensures var s := Saved(c, input);
            && ContentOf(s) == Content(Trim(input.term), Trim(input.definition),
                                       OrUndefined(Some(Trim(input.hint))),
                                       SelectedDifficulty(input.difficulty))
            && !s.isEditing && NoSnapshot(s)
            && s.id == c.id && s.color == c.color
  {
  }

  /** Edit, a rejected save, then a corrected save: the card ends with the
    * corrected values and no edit state, as if the rejected save had not
    * happened. */
  lemma SaveAfterRejectedSaveCommits(c: Flashcard, rejected: FormInput, corrected: FormInput)
    requires !c.isEditing
    requires IsDifficultyOption(rejected.difficulty) && IsDifficultyOption(corrected.difficulty)
    requires Trim(rejected.term) == "" || Trim(rejected.definition) == ""
    requires Trim(corrected.term) != "" && Trim(corrected.definition) != ""
    ensures Saved(Saved(Toggled(c), rejected), corrected) == Saved(Toggled(c), corrected)
  {
    SaveCommits(Saved(Toggled(c), rejected), corrected);
    SaveCommits(Toggled(c), corrected);
  }

  /** Save and cancel leave a card that is not being edited as it is. */
  lemma NotEditingUnchanged(c: Flashcard, input: FormInput)
    requires !c.isEditing && IsDifficultyOption(input.difficulty)
    ensures Saved(c, input) == c
    ensures Cancelled(c) == c
  {
  }

  /** A rejected save still writes the form's values, and keeps the card
    * editing with its snapshot untouched. */
  lemma RejectedSaveWritesFirst(c: Flashcard, input: FormInput)
    requires c.isEditing && IsDifficultyOption(input.difficulty)
    requires Trim(input.term) == "" || Trim(input.definition) == ""
    ensures SaveStatusOf(c, input) == Rejected
    ensures Saved(c, input) == Written(c, input)
    ensures Saved(c, input).isEditing
    ensures Saved(c, input).originalTerm == c.originalTerm
    ensures Saved(c, input).originalHint == c.originalHint
  {
  }

  /** Edit, a rejected save, then cancel: term and definition come back
    * exactly, but a hint or level that was absent before the edit is NOT
    * restored: `??` keeps what the rejected save wrote. */
  lemma CancelAfterRejectedSave(c: Flashcard, input: FormInput)
    requires !c.isEditing && IsDifficultyOption(input.difficulty)
    requires Trim(input.term) == "" || Trim(input.definition) == ""
    ensures var r := Cancelled(Saved(Toggled(c), input));
            && r.term == c.term && r.definition == c.definition
            && r.hint == (if c.hint.Some? then c.hint else OrUndefined(Some(Trim(input.hint))))
            && r.difficultyLevel ==
                 (if c.difficultyLevel.Some? then c.difficultyLevel
                  else SelectedDifficulty(input.difficulty))
            && !r.isEditing && NoSnapshot(r)
  {
  }

  /** A card with no hint, a save whose term is a single space (which the
    * form submits and the trim check rejects) with the hint `h`, then
    * cancel: the card ends with the hint `h` it never had. */
  lemma CancelAfterRejectedSaveKeepsNewHint(c: Flashcard)
    requires !c.isEditing && c.hint.None?
    ensures Cancelled(Saved(Toggled(c), FormInput(" ", c.definition, "h", ""))).hint == Some("h")
  {
    assert IsTrimmed("h");
    TrimSpec("h");
    assert Trim(" ") == "" by {
      assert IsBlank(" ");
      TrimSpec(" ");
    }
  }

  /** Cancelling is idempotent, and so is saving the same form twice. */
  lemma TransitionsSettle(c: Flashcard, input: FormInput)
    requires IsDifficultyOption(input.difficulty)
    ensures Cancelled(Cancelled(c)) == Cancelled(c)
    ensures Saved(Saved(c, input), input) == Saved(c, input)
  {
    if c.isEditing {
      var w := Written(c, input);
      TrimIdempotent(input.term);
      TrimIdempotent(input.definition);
      TrimIdempotent(input.hint);
    }
  }

  /** No transition changes a card's id or colour. */
  lemma TransitionsKeepIdentity(c: Flashcard, input: FormInput)
    requires IsDifficultyOption(input.difficulty)
    ensures Toggled(c).id == c.id && Toggled(c).color == c.color
    ensures Saved(c, input).id == c.id && Saved(c, input).color == c.color
    ensures Cancelled(c).id == c.id && Cancelled(c).color == c.color
  {
  }

  /** Every transition keeps "an editing card holds its snapshot". */
  lemma TransitionsKeepSnapshotHeld(c: Flashcard, input: FormInput)
    requires IsDifficultyOption(input.difficulty)
    requires SnapshotHeld(c)
    ensures SnapshotHeld(Toggled(c))
    ensures SnapshotHeld(Saved(c, input))
    ensures SnapshotHeld(Cancelled(c))
  {
  }

  // ---------------------------------------------------------------------------
  // Properties of a collection
  // ---------------------------------------------------------------------------

  /** Only the first card with the id changes, and that card changes by `f`;
    * an unknown id changes nothing. */
  lemma UpdateFirstFrame(cards: seq<Flashcard>, id: string, f: Flashcard -> Flashcard)
    ensures |UpdateFirst(cards, id, f)| == |cards|
    ensures forall j :: 0 <= j < |cards| && j != FirstIndex(cards, id) ==>
              UpdateFirst(cards, id, f)[j] == cards[j]
    ensures FirstIndex(cards, id) < |cards| ==>
              UpdateFirst(cards, id, f)[FirstIndex(cards, id)] == f(cards[FirstIndex(cards, id)])
    ensures (forall j :: 0 <= j < |cards| ==> cards[j].id != id) ==> UpdateFirst(cards, id, f) == cards
  {
  }

  /** All cards hold their snapshot while editing. */
  predicate AllSnapshotHeld(cards: seq<Flashcard>) {
    forall k :: 0 <= k < |cards| ==> SnapshotHeld(cards[k])
  }

  /** The ids of a collection, in order. */
  function Ids(cards: seq<Flashcard>): (r: seq<string>)
    ensures |r| == |cards| && forall k :: 0 <= k < |cards| ==> r[k] == cards[k].id
  {
    seq(|cards|, k requires 0 <= k < |cards| => cards[k].id)
  }

  /** The three operations keep every id where it was and keep every editing
    * card's snapshot in place. */
  lemma OperationsKeepIdsAndSnapshots(cards: seq<Flashcard>, id: string, input: FormInput)
    requires IsDifficultyOption(input.difficulty)
    requires AllSnapshotHeld(cards)
    ensures Ids(ToggleAt(cards, id)) == Ids(cards) && AllSnapshotHeld(ToggleAt(cards, id))
    ensures Ids(SaveAt(cards, id, input)) == Ids(cards) && AllSnapshotHeld(SaveAt(cards, id, input))
    ensures Ids(CancelAt(cards, id)) == Ids(cards) && AllSnapshotHeld(CancelAt(cards, id))
  {
    var i := FirstIndex(cards, id);
    if i < |cards| {
      TransitionsKeepIdentity(cards[i], input);
      TransitionsKeepSnapshotHeld(cards[i], input);
    }
  }
}
