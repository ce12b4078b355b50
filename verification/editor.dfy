/**
 The note editor of the app: a draft (name and body being typed) and the
 collection of saved notes, a map from note name to note content. Each
 handler is one atomic step. Device storage is not modelled here: a handler
 that touches it receives the outcome of its read or write as a parameter,
 and reports the collection it asked storage to write.
 */
module NoteEditor {
  import opened Whitespace

  datatype Option<+T> = None | Some(value: T)

  /** The saved notes: note name to note content. */
  type Notes = map<string, string>

  /** The component's state: the draft and the committed collection. */
  datatype Editor = Editor(draftName: string, draftContent: string, notes: Notes)

  /** The state at mount: empty draft, empty collection. */
  const Initial := Editor("", "", map[])

  /** Why hydration failed: the storage read threw, or the stored text was not JSON. */
  datatype ReadFault = GetItemFailed | ParseFailed

  /** What reading the stored collection produced. */
  datatype ReadOutcome = Missing | Loaded(stored: Notes) | ReadFailed(fault: ReadFault)

  /** What writing the collection to storage produced. */
  datatype WriteOutcome = Written | WriteFailed

  /** The alert a handler raises: none, the save confirmation, the
      missing-name error, or a storage error. */
  datatype Notice = Silent | SavedNotice | NameRequired | StorageError

  /** The result of an asynchronous handler: the new state, the collection
      handed to storage (if any write was attempted) and the alert raised. */
  datatype Step = Step(editor: Editor, write: Option<Notes>, notice: Notice)

  predicate SameDraft(a: Editor, b: Editor) {
    a.draftName == b.draftName && a.draftContent == b.draftContent
  }

  /** The state adopts the written collection exactly when storage accepted it. */
  predicate CommitsOnSuccess(before: Editor, w: WriteOutcome, r: Step) {
    r.write.Some? && r.editor.notes == (if w == Written then r.write.value else before.notes)
  }

  /** The collection with `name` mapped to `content`, inserted or overwritten. */
  function Upsert(notes: Notes, name: string, content: string): (r: Notes)
    ensures r.Keys == notes.Keys + {name}
    ensures r[name] == content
    ensures forall k :: k in notes && k != name ==> r[k] == notes[k]
  {
    notes[name := content]
  }

  /** The collection without `name`; absent names leave it as it was. */
  function Remove(notes: Notes, name: string): (r: Notes)
    ensures r.Keys == notes.Keys - {name}
    ensures forall k :: k in r ==> r[k] == notes[k]
    ensures name !in notes ==> r == notes
  {
    notes - {name}
  }

  /** Hydration. An absent stored value leaves the collection as it was, a
      parsed one replaces it wholesale, and a read or parse failure leaves
      it as it was and raises a storage error. The draft is never touched. */
  function LoadNotes(e: Editor, read: ReadOutcome): (r: Step)
    ensures r.write == None && SameDraft(r.editor, e)
    ensures read.Loaded? ==> r.editor.notes == read.stored && r.notice == Silent
    ensures read.Missing? ==> r.editor == e && r.notice == Silent
    ensures read.ReadFailed? ==> r.editor == e && r.notice == StorageError
  {
    match read
    case Missing => Step(e, None, Silent)
    case Loaded(stored) => Step(e.(notes := stored), None, Silent)
    case ReadFailed(_) => Step(e, None, StorageError)
  }

  /** Saving the draft. A blank name is rejected before any write and
      changes nothing. Otherwise the collection with the draft name (as
      typed, untrimmed) mapped to the draft content is written, and becomes
      the committed collection only if the write succeeded. */
  function SaveNote(e: Editor, w: WriteOutcome): (r: Step)
    ensures IsBlank(e.draftName) ==> r == Step(e, None, NameRequired)
    ensures !IsBlank(e.draftName) ==>
      && CommitsOnSuccess(e, w, r)
      && r.write.value.Keys == e.notes.Keys + {e.draftName}
      && r.write.value[e.draftName] == e.draftContent
      && (forall k :: k in e.notes && k != e.draftName ==> r.write.value[k] == e.notes[k])
      && SameDraft(r.editor, e)
      && r.notice == (if w == Written then SavedNotice else StorageError)
  {
    if IsBlank(e.draftName) then
      Step(e, None, NameRequired)
    else
      var next := Upsert(e.notes, e.draftName, e.draftContent);
      match w
      case Written => Step(e.(notes := next), Some(next), SavedNotice)
      case WriteFailed => Step(e, Some(next), StorageError)
  }

  /** Copying a saved note into the draft; the collection is untouched. */
  function LoadNote(e: Editor, name: string): (r: Editor)
    requires name in e.notes
    ensures r.notes == e.notes
    ensures r.draftName == name && r.draftContent == e.notes[name]
  {
    Editor(name, e.notes[name], e.notes)
  }

  /** Deleting a note. The collection without `name` is written (absent
      names are not an error) and committed only if the write succeeded;
      only then, and only if the draft was that note, is the draft cleared. */
  function DeleteNote(e: Editor, name: string, w: WriteOutcome): (r: Step)
    ensures CommitsOnSuccess(e, w, r)
    ensures r.write.value.Keys == e.notes.Keys - {name}
    ensures forall k :: k in r.write.value ==> r.write.value[k] == e.notes[k]
    ensures w == Written && e.draftName == name ==> r.editor.draftName == "" && r.editor.draftContent == ""
    ensures w == WriteFailed || e.draftName != name ==> SameDraft(r.editor, e)
    ensures r.notice == (if w == Written then Silent else StorageError)
  {
    var next := Remove(e.notes, name);
    match w
    case WriteFailed => Step(e, Some(next), StorageError)
    case Written =>
      if e.draftName == name then Step(Editor("", "", next), Some(next), Silent)
      else Step(e.(notes := next), Some(next), Silent)
  }

  /** Emptying the draft; the collection is untouched. */
  function ClearCurrentNote(e: Editor): (r: Editor)
    ensures r.draftName == "" && r.draftContent == ""
    ensures r.notes == e.notes
  {
    Editor("", "", e.notes)
  }

  /** Typing in the name field. */
  function EditName(e: Editor, text: string): (r: Editor)
    ensures r.draftName == text && r.draftContent == e.draftContent && r.notes == e.notes
  {
    e.(draftName := text)
  }

  /** Typing in the content field. */
  function EditContent(e: Editor, text: string): (r: Editor)
    ensures r.draftContent == text && r.draftName == e.draftName && r.notes == e.notes
  {
    e.(draftContent := text)
  }
}
