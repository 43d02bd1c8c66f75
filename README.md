# AnkiMaker flashcard core, modelled in Dafny

AnkiMaker is a browser page (`index.tsx`) that makes flashcards from a topic or a
document through a text-generation service, lets the user edit them one at a time,
and imports and exports them as a `;`-separated text file. This project models the
logic inside that page and proves properties of it:

- **Record parsers** (`recordparser.dfy`). Two line-oriented dialects read text into
  cards:
  - The generation-response dialect splits each line on `:`. It has a four-field rule
    and a fallback for two or three fields.
  - The import dialect splits on `;`.
  - Both split the text on `\n`, read each line on its own and drop the lines they
    reject. Every accepted line draws the next palette colour and gets the id
    `<prefix><clock>-<line index>`.
- **The JavaScript built-ins they rely on** (`jsstring.dfy`): `split` by one character,
  `join`, `trim`, `parseInt(s, 10)`, number-to-decimal conversion and `endsWith`.
- **The colour palette** (`palette.dfy`): 15 colours handed out round-robin by
  `getNextCardColor`.
- **The export serialiser** (`exporter.dfy`). Each card becomes one line
  `term;definition;hint;level`, and the lines are joined with `\n`. An empty collection
  is refused.
- **The edit state machine** (`editing.dfy`): `toggleEditMode`, `saveFlashcard` and
  `cancelEdit`, as transitions on card values. Each acts on the first card with the
  given id and on no other card.
- **The collection outcome rules** (`outcomes.dfy`):
  - Generation replaces the collection when it yields cards. A thrown error, an empty
    reply or zero parsed cards leave the collection as it was.
  - Import appends what it yields.
  - The file also covers the `parseInt(value, 10) || 10` card-count default and the
    file-name routing.
- **The session itself** (`store.dfy`).
  - Card objects are a class whose fields the edit methods assign in place.
  - `flashcardsData` and `currentColorIndex` are fields of a `Session` object.
  - Each method is proved to leave the session in the state the pure transitions
    describe.

`Date.now()` is a parameter `clock: nat -> nat` applied to the line index, since the
source reads it once per accepted line. A batch read within one millisecond is the
constant clock. The id lemmas hold for every clock.

Where the code's behaviour is easy to misread, the model follows the code:

- `toggleEditMode` on a card that is already editing does not do nothing. It turns
  editing off, restores nothing and keeps the snapshot fields (index.tsx:312-318).
- `saveFlashcard` writes the form's values to the card before it checks them. A
  rejected save leaves the empty term or definition on the card, and the card stays
  editing (index.tsx:341-352).
- `cancelEdit` does not restore the snapshot exactly. It uses `??`, so a hint or level
  that was absent before the edit keeps whatever a rejected save wrote
  (index.tsx:371-372).
- `-` turns into "no hint" only in the four-field generation rule. The generation
  fallback and the import dialect keep `-` as a hint (index.tsx:436, 458, 600).
- The fallback only ever runs with two or three fields, so its "fields 2.. rejoined
  with `:`" only ever sees one field. A line with four or more fields and a
  non-blank term takes the first branch. With a blank term, neither branch is taken
  and the line gives no card (index.tsx:432, 455).
- Ids are proved distinct within one batch only. Two batches read in the same
  millisecond can make the same id (index.tsx:447, 611).

## Model

| member | source | states |
|---|---|---|
| `JsString.Split` | index.tsx:428 | definition of `s.split(d)` for a one-character `d`; its properties are `JsString.SplitSpec` and `JsString.SplitJoin` |
| `JsString.Join` | index.tsx:458 | definition of `parts.join(d)`; `JsString.SplitSpec` and `JsString.SplitJoin` relate it to `split` |
| `JsString.Trim` | index.tsx:433-435 | definition of `s.trim()` over the ECMAScript whitespace set; its properties are `JsString.TrimSpec` |
| `JsString.ParseInt` | index.tsx:440 | definition of `parseInt(s, 10)`: leading whitespace, an optional sign, the longest digit run, NaN when there is none; its properties are `JsString.ParseIntOfDigitsThen`, `JsString.ParseIntSigned`, `JsString.ParseIntNoDigits`, `JsString.ParseIntSkipsWhitespace` and `JsString.ParseIntOfNatToString` |
| `JsString.EndsWith` | index.tsx:521 | definition of `s.endsWith(suffix)`; used by the routing lemmas |
| `JsString.SplitSpec` | index.tsx:428-430 | `split` on one character gives one more piece than there are separators, no piece holds the separator, and joining the pieces back gives the text |
| `JsString.SplitJoin` | index.tsx:458 | `split` undoes `join` when no piece holds the separator |
| `JsString.TrimSpec` | index.tsx:432-435 | `trim` leaves no whitespace at either end, leaves a trimmed string alone, gives `""` exactly for a blank string, and keeps only characters of its input |
| `JsString.NatToString` | index.tsx:447 | a number prints as a non-empty run of decimal digits with no leading zero |
| `JsString.ParseIntOfNatToString` | index.tsx:440 | `parseInt` of a printed natural number gives that number back |
| `JsString.ParseIntOfDigitsThen` | index.tsx:440 | `parseInt` of a digit run followed by nothing or by a non-digit is the value of the whole run, leading zeros included |
| `JsString.ParseIntLeadingZero` | index.tsx:440 | `parseInt("01", 10)` is 1 |
| `JsString.ParseIntStopsAtNonDigit` | index.tsx:440 | `parseInt("2abc", 10)` and `parseInt("2.5", 10)` are 2 |
| `JsString.ParseIntSigned` | index.tsx:440 | a `+` or `-` in front of the digit run gives the run's value with that sign |
| `JsString.ParseIntNoDigits` | index.tsx:440 | NaN when no digit is where the number starts: the empty string, a first character that is not a digit, whitespace or sign, or a sign without a digit after it |
| `JsString.ParseIntSkipsWhitespace` | index.tsx:440 | whitespace in front of the number is skipped |
| `JsString.NatToStringInjective` | index.tsx:447 | different numbers print differently |
| `Palette.ColorAt` | index.tsx:72 | definition of `cardColorsLight[currentColorIndex]`; `Palette.ColorsDistinct` shows no two positions share a colour |
| `Palette.NextColorIndex` | index.tsx:73 | definition of `(currentColorIndex + 1) % cardColorsLight.length` |
| `Palette.Advance` | index.tsx:71-75 | definition of k successive `getNextCardColor` calls on the position; its properties are `Palette.AdvanceIsModular`, `Palette.AdvanceAdds` and `Palette.PaletteCycle` |
| `Palette.AdvanceIsModular` | index.tsx:71-75 | drawing k colours one by one moves the position by k modulo 15 |
| `Palette.AdvanceAdds` | index.tsx:71-75 | drawing j colours and then k colours is drawing j + k |
| `Palette.PaletteCycle` | index.tsx:64-75 | the palette position comes back to where it was after a multiple of 15 draws and at no other count |
| `Palette.ColorsDistinct` | index.tsx:64-68 | the 15 entries of `cardColorsLight` are pairwise different |
| `Palette.ColorCycle` | index.tsx:64-75 | the colour handed out after k more draws is the same colour exactly when k is a multiple of 15 |
| `RecordParser.GenerationLine` | index.tsx:429-470 | definition of the per-line callback of the generation parser; its properties are `RecordParser.LineParserSpec`, `RecordParser.GenerationFourFieldRule`, `RecordParser.GenerationFallbackRule` and the worked examples |
| `RecordParser.ImportLine` | index.tsx:595-621 | definition of the per-line callback of the import parser; its properties are `RecordParser.LineParserSpec`, `RecordParser.ImportFieldRule` and `Exporter.ImportOfExportLine` |
| `RecordParser.LevelOf` | index.tsx:438-443 | definition of `[1,2,3].includes(parseInt(s, 10))` with the level kept (also index.tsx:602-606); its properties are `RecordParser.LevelOfDecimal` and `RecordParser.LevelOfDigitsThen` |
| `RecordParser.OrUndefined` | index.tsx:450 | definition of the falsy-to-`undefined` default on the hint: an empty hint becomes absent (also index.tsx:464) |
| `RecordParser.CardId` | index.tsx:447 | definition of the id `` `${prefix}${Date.now()}-${idx}` `` (also index.tsx:611); its properties are `RecordParser.CardIdDeterminesIndex` and `RecordParser.BatchIdsDistinct` |
| `RecordParser.ParseText` | index.tsx:427-428 | definition of `text.split('\n').map(...).filter(...)` in either dialect (also index.tsx:593-594); its properties are the `ParseLines` lemmas below |
| `RecordParser.LineParserSpec` | index.tsx:432-469 | in both dialects a line is accepted exactly when it has two or more fields with a non-blank term and definition; the card's term and definition are those fields trimmed, and it is well formed |
| `RecordParser.LevelOfDecimal` | index.tsx:438-443 | a level written in decimal is kept when it is 1, 2 or 3 and dropped otherwise, never clamped |
| `RecordParser.LevelOfDigitsThen` | index.tsx:438-443 | a level field that is a digit run followed by nothing or a non-digit gives the run's value when it is 1, 2 or 3, and no level otherwise |
| `RecordParser.LevelOfTrailingDot` | index.tsx:440-442 | the level field `2.` gives level 2 |
| `RecordParser.LevelOfSigned` | index.tsx:440-442 | the level field `+2` gives level 2, while `-2` and `-` give no level |
| `RecordParser.LevelOfNotANumber` | index.tsx:440-442 | the level field `N/A` gives no level |
| `RecordParser.GenerationFourFieldRule` | index.tsx:432-453 | with four or more fields and a non-blank term: accepted exactly when the definition is not blank; the hint is field 2 trimmed unless it is `-` or blank; the level is the one field 3 names, when it is in range |
| `RecordParser.GenerationFallbackRule` | index.tsx:455-468 | with two or three fields: the hint is field 2 trimmed, a `-` included, and there is never a level |
| `RecordParser.ImportFieldRule` | index.tsx:596-607 | in the import dialect the hint is field 2 trimmed when it is present and not blank (a `-` is kept), and the level is read from field 3 when it is present |
| `RecordParser.GenerationIgnoresExtraFields` | index.tsx:430-443 | fields after the fourth do not change what a generation line yields |
| `RecordParser.ImportIgnoresExtraFields` | index.tsx:596-607 | fields after the fourth do not change what an import line yields |
| `RecordParser.GenerationOfTrimmedFields` | index.tsx:430-453 | a line of four trimmed fields with no `:` yields exactly those fields, `-` or blank meaning no hint |
| `RecordParser.GenerationOfThreeTrimmedFields` | index.tsx:455-468 | a line of three trimmed fields yields those fields as term, definition and hint, with no level |
| `RecordParser.ImportOfTrimmedFields` | index.tsx:596-618 | an import line of four trimmed fields with no `;` yields exactly those fields, a blank one meaning absent |
| `RecordParser.GenerationExampleFull` | index.tsx:432-453 | `Apple:A fruit:Grows on trees:1` yields term `Apple`, definition `A fruit`, hint `Grows on trees` and level 1 |
| `RecordParser.GenerationExamplePlaceholder` | index.tsx:436 | `X:Y:-:2` has no hint and level 2 |
| `RecordParser.GenerationExampleOutOfRange` | index.tsx:440-443 | `X:Y:Z:7` still makes a card, without a level |
| `RecordParser.GenerationExampleNoDefinition` | index.tsx:445 | `OnlyTerm::-:1` makes no card |
| `RecordParser.GenerationExampleFallbackKeepsDash` | index.tsx:458-464 | the three-field line `X:Y:-` keeps `-` as its hint |
| `RecordParser.ImportExampleKeepsDash` | index.tsx:600 | the import line `X;Y;-;2` keeps `-` as its hint and reads level 2 |
| `RecordParser.ParseLines` | index.tsx:427-472 | a batch has no more cards than lines, moves the palette by one per card, and its cards are neither editing nor hold a snapshot |
| `RecordParser.AcceptedLinesSound` | index.tsx:470-472 | the listed line numbers are in range, strictly increasing, and each names an accepted line |
| `RecordParser.AcceptedLinesComplete` | index.tsx:470-472 | every accepted line is listed |
| `RecordParser.ParseLinesFollowsAccepted` | index.tsx:427-472 | card k is made from the k-th accepted line, carries that line's number in its id, and has the colour k draws after the starting one |
| `RecordParser.ParseLinesAllAccepted` | index.tsx:593-622 | when every line is accepted there is one card per line, in order, holding that line's content |
| `RecordParser.BatchWellFormed` | index.tsx:432-459 | every card of a batch has a non-empty trimmed term and definition, and a non-empty trimmed hint when it has one |
| `RecordParser.BatchAdvancesColor` | index.tsx:73 | a batch moves the palette position by its number of cards, modulo 15 |
| `RecordParser.CardIdDeterminesIndex` | index.tsx:447 | equal ids with the same prefix have the same line number, whatever the timestamps |
| `RecordParser.BatchIdsDistinct` | index.tsx:611 | the ids within one batch are pairwise distinct, whatever the clock reads |
| `Exporter.HintField` | index.tsx:636 | definition of the hint field of an export line: the hint, or `''` when there is none |
| `Exporter.LevelField` | index.tsx:636 | definition of the level field of an export line: the level in decimal, or `''` when there is none |
| `Exporter.ExportLine` | index.tsx:636 | definition of the template `term;definition;hint;level`; its properties are `Exporter.ExportLineFields` and `Exporter.ImportOfExportLine` |
| `Exporter.ExportLines` | index.tsx:635-636 | definition of the `map` over the cards; its properties are in `Exporter.ExportOneLinePerCard` and `Exporter.ImportAfterExport` |
| `Exporter.Export` | index.tsx:627-637 | export gives nothing exactly when the collection is empty |
| `Exporter.ExportLineFields` | index.tsx:636 | with no `;` inside a field, an export line splits back into exactly its four fields |
| `Exporter.ImportOfExportLine` | index.tsx:636 | an exportable card's line reads back in the import dialect as the same term, definition, hint and level |
| `Exporter.ExportOneLinePerCard` | index.tsx:635-637 | with no `\n` inside a field, the file splits into exactly one line per card |
| `Exporter.ImportAfterExport` | index.tsx:632-637 | importing an export gives back the same number of cards, in order, with the same term, definition, hint and level |
| `Exporter.ExportSeesContentOnly` | index.tsx:632 | colour, id and edit state do not reach the file |
| `Editing.UpdateFirst` | index.tsx:304 | definition of "apply a change to the card `find` returns"; its property is `Editing.UpdateFirstFrame` |
| `Editing.Toggled` | index.tsx:312-318 | definition of `toggleEditMode` on the card found; its properties are `Editing.ToggleSnapshots` and the lemmas below |
| `Editing.Written` | index.tsx:341-345 | definition of the four form writes that `saveFlashcard` makes before it validates |
| `Editing.Saved` | index.tsx:341-358 | definition of `saveFlashcard` on the card found; its properties are `Editing.SaveCommits`, `Editing.RejectedSaveWritesFirst`, `Editing.NotEditingUnchanged` and `Editing.TransitionsSettle` |
| `Editing.SaveStatusOf` | index.tsx:347-358 | definition of which way `saveFlashcard` went; its property is `Editing.SaveStatusSpec` |
| `Editing.Cancelled` | index.tsx:369-377 | definition of `cancelEdit` on the card found; its properties are `Editing.CancelAfterToggleRestores`, `Editing.CancelAfterRejectedSave` and `Editing.NotEditingUnchanged` |
| `Editing.ToggleAt` | index.tsx:303-318 | definition of `toggleEditMode` on the collection; its property is `Editing.OperationsKeepIdsAndSnapshots` |
| `Editing.SaveAt` | index.tsx:333-358 | definition of `saveFlashcard` on the collection; its property is `Editing.OperationsKeepIdsAndSnapshots` |
| `Editing.SaveStatusAt` | index.tsx:334-335 | definition of the save status on the collection, "not editing" for an unknown id |
| `Editing.CancelAt` | index.tsx:366-377 | definition of `cancelEdit` on the collection; its property is `Editing.OperationsKeepIdsAndSnapshots` |
| `Editing.FirstIndex` | index.tsx:304 | the position found is the first card with the id, or the length when no card has it |
| `Editing.UpdateFirstFrame` | index.tsx:304-305 | only the first card with the id changes; an unknown id changes nothing |
| `Editing.ToggleSnapshots` | index.tsx:312-318 | entering edit mode snapshots the four content fields exactly; a second toggle only clears the flag |
| `Editing.SaveStatusSpec` | index.tsx:335-358 | the save status is "not editing" (nothing changes), "rejected" (still editing) or "committed" (editing ended) |
| `Editing.CancelAfterToggleRestores` | index.tsx:366-377 | edit then cancel gives back the card as it was, without a snapshot |
| `Editing.SaveAfterToggleCommits` | index.tsx:341-358 | edit then a valid save leaves the trimmed form values and no edit state |
| `Editing.RejectedSaveWritesFirst` | index.tsx:341-352 | a rejected save still writes the form's values and keeps the card editing with its snapshot |
| `Editing.SaveCommits` | index.tsx:341-358 | on any editing card, a save with a non-blank term and definition leaves the trimmed form values, ends editing and deletes the snapshot, keeping id and colour |
| `Editing.SaveAfterRejectedSaveCommits` | index.tsx:341-358 | edit, a rejected save, then a corrected save ends exactly where edit then the corrected save does |
| `Editing.NotEditingUnchanged` | index.tsx:333-383 | save and cancel change nothing on a card that is not being edited |
| `Editing.CancelAfterRejectedSave` | index.tsx:369-377 | after a rejected save, cancel restores term and definition, but an absent hint or level keeps what the save wrote |
| `Editing.CancelAfterRejectedSaveKeepsNewHint` | index.tsx:371 | a card without a hint, a save with the term `" "` (submitted by the form, rejected by the trim check) and hint `h`, then cancel: the card ends with hint `h` |
| `Editing.TransitionsSettle` | index.tsx:333-383 | cancelling twice is cancelling once, and saving the same form twice is saving it once |
| `Editing.TransitionsKeepIdentity` | index.tsx:303-383 | no edit operation changes a card's id or colour |
| `Editing.TransitionsKeepSnapshotHeld` | index.tsx:312-358 | every edit operation keeps "an editing card holds its snapshot" |
| `Editing.OperationsKeepIdsAndSnapshots` | index.tsx:303-383 | on a collection, the three operations keep every id in place and keep every editing card's snapshot |
| `Outcomes.RequestedCount` | index.tsx:502 | definition of the count default: the number `parseInt(value, 10)` reads, or 10 when that is NaN or 0 (also index.tsx:539); its properties are `Outcomes.RequestedCountSpec` and `Outcomes.RequestedCountOfDecimal` |
| `Outcomes.GenerationSourceOf` | index.tsx:521-530 | definition of the generate-from-file routing; its property is `Outcomes.GenerationRoutingByExtension` |
| `Outcomes.ImportAccepts` | index.tsx:566 | definition of the import routing; its property is `Outcomes.ImportRoutingByExtension` |
| `Outcomes.AfterReply` | index.tsx:424-487 | definition of `callGeminiForFlashcards` from the reply on, with an empty error message shown as "An unknown error occurred"; its properties are `Outcomes.GenerationReplacesOrKeeps` and `Outcomes.GenerationForgetsPrevious` |
| `Outcomes.AfterTopic` | index.tsx:495-504 | definition of the generate button handler; its property is `Outcomes.TopicHandler` |
| `Outcomes.AfterFile` | index.tsx:510-540 | definition of the generate-from-file handler; its property is `Outcomes.FileHandler` |
| `Outcomes.AfterImport` | index.tsx:564-580 | definition of the import handler; its property is `Outcomes.ImportAppends` |
| `Outcomes.RequestedCountSpec` | index.tsx:502 | the count is never 0: it is the typed number when that is not 0, and 10 otherwise |
| `Outcomes.RequestedCountOfDecimal` | index.tsx:539 | a typed positive number is the count; an empty field and `0` give 10 |
| `Outcomes.GenerationRoutingByExtension` | index.tsx:521-530 | generate-from-file picks its reader by the extension alone: `.txt` is read as text, `.pdf` through the extractor, `.csv` is refused |
| `Outcomes.ImportRoutingByExtension` | index.tsx:566-573 | import accepts a name by its extension alone: `.txt` and `.csv` are read, `.pdf` is refused |
| `Outcomes.GenerationReplacesOrKeeps` | index.tsx:474-483 | generation replaces the collection with the parsed batch exactly when the reply is a non-empty text that yields cards, and otherwise keeps it; the palette moves by one per parsed card |
| `Outcomes.GenerationForgetsPrevious` | index.tsx:475 | after a successful generation the previous collection has no influence on the result |
| `Outcomes.ImportAppends` | index.tsx:575-580 | import leaves the old collection as a prefix and appends exactly the parsed batch, reporting its size or "no valid flashcards" |
| `Outcomes.FlowsKeepSnapshots` | index.tsx:474-576 | generation and import keep "an editing card holds its snapshot" |
| `Outcomes.TopicHandler` | index.tsx:495-504 | the outcome is "enter a topic" exactly when the topic is blank; whitespace around the topic changes nothing; the collection is kept unless cards were generated; the snapshot invariant is kept |
| `Outcomes.FileHandler` | index.tsx:510-540 | the file is refused as unsupported exactly when its name ends in neither `.txt` nor `.pdf`, and as empty exactly when the content its reader gives is blank; the collection is kept unless cards were generated; the snapshot invariant is kept |
| `Store.Card.constructor` | index.tsx:446-453 | a new card object holds the given value |
| `Store.Card.Toggle` | index.tsx:312-318 | the in-place writes of `toggleEditMode` give the toggled value |
| `Store.Card.Save` | index.tsx:341-358 | the in-place writes of `saveFlashcard` give the saved value and its status |
| `Store.Card.Cancel` | index.tsx:369-377 | the in-place writes of `cancelEdit` give the cancelled value |
| `Store.NewCards` | index.tsx:446-453 | makes distinct fresh card objects holding the batch, in order |
| `Store.Session.constructor` | index.tsx:61-70 | the session starts with no cards and palette position 0 |
| `Store.Session.GetNextCardColor` | index.tsx:71-75 | hands out the colour at the current position and moves the position on by one, wrapping after 15 |
| `Store.Session.FindCard` | index.tsx:304 | finds the position of the first card with the id, or the length |
| `Store.Session.ToggleEditMode` | index.tsx:303-331 | the collection becomes the toggle of its first card with the id |
| `Store.Session.SaveFlashcard` | index.tsx:333-364 | the collection becomes the save of its first card with the id, and the status says what happened |
| `Store.Session.CancelEdit` | index.tsx:366-383 | the collection becomes the cancel of its first card with the id |
| `Store.Session.CallGeminiForFlashcards` | index.tsx:385-492 | the session ends in the state and outcome that the generation rule gives for the service's reply |
| `Store.Session.GenerateFromTopic` | index.tsx:495-504 | a blank topic is refused; otherwise the trimmed topic is sent with the requested count |
| `Store.Session.GenerateFromFile` | index.tsx:510-548 | routes by extension, refuses blank content, and otherwise sends the content with the requested count |
| `Store.Session.ImportFile` | index.tsx:555-589 | the session ends in the state and outcome of the import rule |
| `Store.Session.DownloadFlashcardsData` | index.tsx:626-637 | the content produced is the export of the current cards, and nothing when there are none |

## Left out

- The generation service call (index.tsx:419-422) is not modelled. It is a parameter
  `ai: Request -> Reply`. The prompt template around the content and the count
  (index.tsx:391-417) is a string literal and is left out as well.
- PDF text extraction (index.tsx:96-107) and `file.text()` are not modelled. Their
  results are the parameters `pdfText` and `text`. An exception thrown while reading a
  file is not modelled.
- DOM rendering, the edit form, flipping, focus, keyboard handling and the
  announcer/error messages (index.tsx:110-301, 320-329, 359-362) are left out. The
  messages that matter survive as the `Outcome` and `SaveStatus` values.
- The Blob/URL download mechanics (index.tsx:639-648) are left out. Only the file
  content is modelled.
- Control disabling around asynchronous work (index.tsx:87-93, 387, 488-491) is left
  out. The model is sequential, one operation at a time.
- Clearing the topic field and the file inputs (index.tsx:477, 527, 534, 546, 570, 585)
  is left out, since these are form widgets.
- The early return when the file dialog closes with no file chosen (index.tsx:512, 557) is
  not modelled. Every file operation of the model starts from a chosen file's name and content.
- `Date.now()` is the parameter `clock`.
- `JsString.ParseInt`: digit runs are mathematical integers. JavaScript rounds a value
  above 2^53 to the nearest float. That never turns an out-of-range level or a count into
  a different small number, but very long counts are not rounded in this model.
- `Editing.SelectedDifficulty` assumes the `<select>` value is one of `""`, `"1"`, `"2"`
  or `"3"`, the only options the form offers (index.tsx:181-194).
- Strings are sequences of code points. UTF-16 surrogate pairs are one character here,
  which changes nothing for the separators, whitespace or digits involved.
- `Store.Card`: `id` and `color` are constant fields, since no code path writes them
  after a card is made. Cards are shared only through `flashcardsData`; no other alias
  is modelled.
