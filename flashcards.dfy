/**
 * The flashcard entity: the `Flashcard` interface as a value, with the
 * optional fields as `Option` (`None` is `undefined`). `isEditing` is a plain
 * boolean: an unset flag is falsy in the source, which is `false` here.
 */
module Flashcards {
  import opened Wrappers

  /** `1 | 2 | 3`. */
  type Level = n: int | 1 <= n <= 3 witness 1

  datatype Flashcard = Flashcard(
    id: string,
    term: string,
    definition: string,
    hint: Option<string>,
    color: string,
    difficultyLevel: Option<Level>,
    isEditing: bool,
    originalTerm: Option<string>,
    originalDefinition: Option<string>,
    originalHint: Option<string>,
    originalDifficultyLevel: Option<Level>)

  /** The four fields a user sees and edits, and that export writes out. */
  datatype Content = Content(
    term: string,
    definition: string,
    hint: Option<string>,
    difficultyLevel: Option<Level>)

  function ContentOf(c: Flashcard): Content {
    Content(c.term, c.definition, c.hint, c.difficultyLevel)
  }

  /** The edit snapshot is absent: no `original*` field is set. */
  predicate NoSnapshot(c: Flashcard) {
    c.originalTerm.None? && c.originalDefinition.None?
    && c.originalHint.None? && c.originalDifficultyLevel.None?
  }

  /** A card being edited has a term and a definition in its snapshot. */
  predicate SnapshotHeld(c: Flashcard) {
    c.isEditing ==> c.originalTerm.Some? && c.originalDefinition.Some?
  }
}
