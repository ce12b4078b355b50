/**
 Laws relating several editor steps: save then look up, delete twice,
 delete undoing a fresh save, overwrite, reload of a saved note, and the
 blank name left by clearing the draft.
 */
module EditorLaws {
  import opened Whitespace
  import opened NoteEditor

  /** A successful save makes the draft's name look up to the draft's content. */
  lemma SaveThenGet(e: Editor)
    requires !IsBlank(e.draftName)
    ensures var n := SaveNote(e, Written).editor.notes;
      e.draftName in n && n[e.draftName] == e.draftContent
  {
  }

  /** After a successful delete the name is absent, whether or not it was present. */
  lemma DeleteThenGet(e: Editor, name: string)
    ensures name !in DeleteNote(e, name, Written).editor.notes
  {
  }

  /** Deleting the same name twice leaves the same state as deleting it once. */
  lemma DeleteIdempotent(e: Editor, name: string)
    ensures var once := DeleteNote(e, name, Written).editor;
      DeleteNote(once, name, Written).editor == once
  {
  }

  /** Saving under a name already present replaces its content and keeps
      the set of names, hence the number of notes. */
  lemma OverwriteKeepsNames(e: Editor)
    requires !IsBlank(e.draftName) && e.draftName in e.notes
    ensures var n := SaveNote(e, Written).editor.notes;
      n.Keys == e.notes.Keys && |n| == |e.notes| && n[e.draftName] == e.draftContent
  {
  }

  /** Saving under a new name adds exactly one note. */
  lemma InsertAddsOne(e: Editor)
    requires !IsBlank(e.draftName) && e.draftName !in e.notes
    ensures |SaveNote(e, Written).editor.notes| == |e.notes| + 1
  {
  }

  /** Saving a new note and then deleting it restores the collection and,
      since the draft was that note, empties the draft. */
  lemma DeleteUndoesFreshSave(e: Editor)
    requires !IsBlank(e.draftName) && e.draftName !in e.notes
    ensures var saved := SaveNote(e, Written).editor;
      DeleteNote(saved, e.draftName, Written).editor == Editor("", "", e.notes)
  {
  }

  /** Opening a saved note and saving it again leaves the collection as it
      was, whatever the write outcome, and even when a stored name is blank
      and the save is rejected. */
  lemma ReopenThenSaveKeepsNotes(e: Editor, name: string, w: WriteOutcome)
    requires name in e.notes
    ensures SaveNote(LoadNote(e, name), w).editor.notes == e.notes
  {
  }

  /** After the draft is cleared, a save is rejected as nameless and changes nothing. */
  lemma ClearThenSaveRejected(e: Editor, w: WriteOutcome)
    ensures var cleared := ClearCurrentNote(e);
      SaveNote(cleared, w) == Step(cleared, None, NameRequired)
  {
  }

  /** A step whose write failed leaves the whole state as it was. */
  lemma FailedWritesChangeNothing(e: Editor, name: string)
    ensures SaveNote(e, WriteFailed).editor == e
    ensures DeleteNote(e, name, WriteFailed).editor == e
  {
  }

  /** A save changes the committed collection at the draft name only: every
      other name keeps its presence and its content. */
  lemma SaveOnlyTargetChanges(e: Editor, w: WriteOutcome, k: string)
    requires k != e.draftName
    ensures var n := SaveNote(e, w).editor.notes;
      (k in n <==> k in e.notes) && (k in n ==> n[k] == e.notes[k])
  {
  }

  /** A delete changes the committed collection at the deleted name only:
      every other name, the draft's included, keeps its presence and its content. */
  lemma DeleteOnlyTargetChanges(e: Editor, name: string, w: WriteOutcome, k: string)
    requires k != name
    ensures var n := DeleteNote(e, name, w).editor.notes;
      (k in n <==> k in e.notes) && (k in n ==> n[k] == e.notes[k])
  {
  }
}
