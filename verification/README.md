# Note editor model

A Dafny model of the note editor in the `App` component of a single-screen
React Native notes app. The component holds a draft (the note name and body
being typed) and the saved collection, a map from note name to note content,
persisted as one JSON blob under the storage key `savedNotes`. Its handlers
are modelled as pure functions over an immutable state:

- `loadNotes` hydrates the collection from storage at mount;
- `saveNote` rejects a blank name, otherwise writes the collection with the
  draft inserted or overwritten, and commits it only after the write succeeds;
- `loadNote` copies a saved note into the draft;
- `deleteNote` writes the collection without the note, commits after the
  write, and clears the draft if it was the deleted note;
- `clearCurrentNote` empties the draft;
- the two text fields' change handlers edit the draft.

Storage is abstracted. Each handler that touches it takes the outcome of its
read or write as a parameter. The outcome is absent, a parsed map, a read
failure or a parse failure for a read, and success or failure for a write.
Each handler also reports the collection it handed to storage. The `Device`
module couples the app with the persisted collection and injects faults.
Starting from a converged device, such as the one a fault-free mount
hydration gives (`Device.MountConverges`), it proves that over any sequence
of events the committed collection in memory stays equal to the persisted
one. A failed hydration leaves the device unconverged, and
`Device.FailedHydrateThenSaveLosesNotes` shows what follows.

Files:

- `whitespace.dfy` (`Whitespace`): `String.prototype.trim` and the blank-name
  test, over the ECMAScript WhiteSpace and LineTerminator code points.
- `editor.dfy` (`NoteEditor`): state, storage outcomes, alerts, and the handlers.
- `laws.dfy` (`EditorLaws`): laws relating several handler calls.
- `device.dfy` (`Device`): app plus persisted collection, event traces, the
  convergence invariant, restart, and a save-save-delete scenario.

## Model

| member | source | states |
|---|---|---|
| Whitespace.IsSpace | App.tsx:29 | the characters `trim` strips are the ECMAScript WhiteSpace and LineTerminator code points; all lie at or below U+FEFF, and no visible ASCII character (`'!'` to `'~'`) is among them |
| Whitespace.LeadingSpaces | App.tsx:29 | the count of leading characters `trim` strips: all of them are white space and the next character, if any, is not |
| Whitespace.TrailingSpaces | App.tsx:29 | the count of trailing characters `trim` strips: all of them are white space and the character before them, if any, is not |
| Whitespace.Trim | App.tsx:29 | `name.trim()` is the middle slice of the name starting after the leading white space; every character outside it is white space, and it neither starts nor ends with white space |
| Whitespace.TrimEmptyIffAllSpace | App.tsx:29 | trimming leaves the empty string exactly when every character of the name is white space |
| Whitespace.IsBlank | App.tsx:29 | the validation test `!noteName.trim()` holds exactly when every character of the name is white space |
| Whitespace.BlankExamples | App.tsx:29-32 | the empty name and a run of spaces are both rejected as blank |
| Whitespace.NotBlankWithVisible | App.tsx:29-32 | a name containing any non-white character passes validation, whatever its padding |
| NoteEditor.Upsert | App.tsx:35-38 | the spread-and-assign gives the old names plus the draft name; the draft name maps to the draft content; every other name keeps its content |
| NoteEditor.Remove | App.tsx:55-56 | copy-and-delete gives the old names minus the deleted one, with unchanged contents; an absent name leaves the collection equal |
| NoteEditor.LoadNotes | App.tsx:17-25 | hydration: an absent value leaves the state unchanged; a parsed value replaces the collection wholesale; a read or parse error leaves the state unchanged and raises a storage alert; it never writes and never touches the draft |
| NoteEditor.SaveNote | App.tsx:28-46 | a blank name is rejected with no write and no state change; otherwise the untrimmed draft name is written with exactly the draft content and all other entries unchanged; the written collection is committed only on write success; the draft is kept; the alert is success or storage error |
| NoteEditor.LoadNote | App.tsx:48-51 | opening a saved note puts its name and stored content in the draft and leaves the collection unchanged |
| NoteEditor.DeleteNote | App.tsx:53-68 | the collection without the name is written and committed only on success; the draft is cleared exactly when the write succeeded and the draft name equals the deleted name, and is otherwise kept; there is no alert on success and a storage alert on failure |
| NoteEditor.ClearCurrentNote | App.tsx:70-73 | both draft fields become empty; the collection is unchanged |
| NoteEditor.EditName | App.tsx:84-87 | typing in the name field sets the draft name only |
| NoteEditor.EditContent | App.tsx:90-95 | typing in the content field sets the draft content only |
| EditorLaws.SaveThenGet | App.tsx:35-41 | after a successful save, the draft name looks up to the draft content |
| EditorLaws.DeleteThenGet | App.tsx:55-59 | after a successful delete, the name is absent, whether or not it was present before |
| EditorLaws.DeleteIdempotent | App.tsx:53-64 | deleting a name twice leaves the same state as deleting it once |
| EditorLaws.OverwriteKeepsNames | App.tsx:35-41 | saving an existing name overwrites its content and keeps the set and number of names |
| EditorLaws.InsertAddsOne | App.tsx:35-41 | saving a new name grows the collection by exactly one |
| EditorLaws.DeleteUndoesFreshSave | App.tsx:35-64 | saving a new note and deleting it restores the collection and empties the draft |
| EditorLaws.ReopenThenSaveKeepsNotes | App.tsx:29-51 | opening any saved note and saving it again leaves the collection unchanged, whatever the write outcome; a stored blank name is rejected by the re-save, which changes nothing either |
| EditorLaws.ClearThenSaveRejected | App.tsx:29-32 | after clearing the draft, a save is rejected as nameless, with no write and no change |
| EditorLaws.FailedWritesChangeNothing | App.tsx:40-66 | a save or delete whose write fails leaves the whole state, draft included, as it was |
| EditorLaws.SaveOnlyTargetChanges | App.tsx:35-41 | a save leaves every name other than the draft name unchanged in presence and content, whatever the write outcome |
| EditorLaws.DeleteOnlyTargetChanges | App.tsx:55-59 | a delete leaves every name other than the deleted one, the draft name included, unchanged in presence and content, whatever the write outcome |
| Device.Persist | App.tsx:40-41 | storage holds the written collection after a successful write and keeps its old contents after a failed write or no write |
| Device.ReadFrom | App.tsx:19-23 | the read path of hydration: a loaded collection is exactly what storage holds; with no fault the outcome is absent or the stored collection; a failed `getItem` fails the read whatever is stored; a parse fault on a stored value fails the read as a parse failure; with the key absent and `getItem` succeeding nothing is parsed, so the outcome is absent even under a parse fault |
| Device.Apply | App.tsx:13-119 | the event wiring (mount hydration, the two text fields, the save, clear, open and delete presses): storage changes only on a save or delete whose write succeeds; the collection in memory changes only on hydration or such a write; opening a listed note puts it in the draft; opening an unlisted name changes nothing |
| Device.ApplyKeepsConverged | App.tsx:17-73 | every event keeps the committed collection equal to the persisted one |
| Device.RunKeepsConverged | App.tsx:17-73 | from a converged device, memory and storage stay convergent over any sequence of events, faults included |
| Device.MountConverges | App.tsx:13-25 | mounting and hydrating without a fault brings memory in line with storage, whether the key is absent or present |
| Device.FailedWriteIsolated | App.tsx:40-66 | a save or delete whose write fails changes neither storage nor the app state |
| Device.SavedNoteSurvivesRestart | App.tsx:17-41 | a note saved in one run is found, unchanged, by the hydration of the next run, whatever memory held before the save |
| Device.FailedHydrateThenSaveLosesNotes | App.tsx:17-41 | after a failed hydration, the next successful save persists a collection holding only the new note; every previously stored note is lost from storage |
| Device.TypeAndSave | App.tsx:28-41 | typing a non-blank name and a body and saving them commits and persists the collection with that entry set |
| Device.DeleteOther | App.tsx:53-64 | deleting a note other than the draft, with the write succeeding, removes it from memory and disk and keeps the draft |
| Device.SaveSaveDeleteScenario | App.tsx:28-68 | for any two distinct non-blank names: save the first, save the second, delete the first; only the second remains, with its content, in memory and on disk |
| Device.GroceriesScenario | App.tsx:28-68 | the same scenario with "Groceries" and "Todo": only "Todo" remains, holding "call mom", in memory and on disk |

## Left out

- Rendering, styling, gradients, icons and touch wiring (App.tsx:75-203): presentation only. The two text fields' change handlers are modelled as draft edits.
- AsyncStorage itself is a foreign library. Every read and write is an outcome parameter, or a fault flag on a `Device` event.
- JSON serialisation and parsing are not modelled. The persisted blob is the map itself, and the stringify/parse round trip is assumed. A stored value that parses to something other than a string-to-string object (for example `null`) is not modelled.
- Alert titles and messages are not modelled. Each handler reports only a tag: silent, saved, name required, or storage error.
- Async interleaving is not modelled, and neither is the stale-closure race between two handlers in flight. Each handler is one atomic step. In particular, a save issued before the mount-time hydration finishes is not modelled.
- Display order of `Object.keys` (App.tsx:110-111) is not a promised property.
- NoteEditor.LoadNote: requires the name to be saved. The source would put `undefined` in the draft for an absent name, but its only caller passes a name taken from the saved collection (App.tsx:110-115). In `Device`, an `Open` of an absent name is therefore a no-op.
- Strings are sequences of Unicode scalar values, not UTF-16 code units. All trimmed characters lie in the Basic Multilingual Plane (`Whitespace.IsSpace`), so blankness is unaffected.
- Hydration: the code does not tell a corrupt blob apart from a read failure. Both reach the same catch, raise one alert and leave the collection unchanged. The model follows the code and keeps the two faults as separate tags with identical effects. A corrupt blob is not reported as an error distinct from a read failure; `Device.FailedHydrateThenSaveLosesNotes` shows the consequence.
