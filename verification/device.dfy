/**
 The editor together with the collection persisted on the device under the
 single storage key. Storage reads and writes either succeed or fail (the
 event says which); a successful write replaces the persisted collection by
 the one handed to storage. The persisted text is taken to be the collection
 itself: serialising and parsing it back gives the same map.
 */
module Device {
  import opened Whitespace
  import opened NoteEditor

  /** The running app and what storage holds (None: the key was never written). */
  datatype Device = Device(app: Editor, disk: Option<Notes>)

  /** A user action or lifecycle event, with the fault the storage layer
      injects into it when it does I/O. */
  datatype Event =
    | Hydrate(readFault: Option<ReadFault>)
    | TypeName(name: string)
    | TypeContent(content: string)
    | Save(writeFails: bool)
    | Delete(name: string, writeFails: bool)
    | Open(name: string)
    | Clear

  /** The collection a fresh hydration would find: an absent key reads as empty. */
  function Persisted(d: Device): Notes {
    if d.disk.Some? then d.disk.value else map[]
  }

  /** The one invariant of the app: the committed collection in memory is the
      one last persisted. */
  predicate Converged(d: Device) {
    d.app.notes == Persisted(d)
  }

  /** What hydration reads. Nothing is parsed when the key is absent, so a
      parse fault only arises when something is stored. */
  function ReadFrom(disk: Option<Notes>, fault: Option<ReadFault>): (r: ReadOutcome)
    ensures r.Loaded? ==> disk == Some(r.stored)
    ensures disk.None? ==> r.Missing? || r == ReadFailed(GetItemFailed)
    ensures fault.None? ==> r == (if disk.None? then Missing else Loaded(disk.value))
    ensures fault == Some(GetItemFailed) ==> r == ReadFailed(GetItemFailed)
    ensures disk.Some? && fault == Some(ParseFailed) ==> r == ReadFailed(ParseFailed)
    ensures disk.None? && fault != Some(GetItemFailed) ==> r == Missing
  {
    if fault == Some(GetItemFailed) then ReadFailed(GetItemFailed)
    else if disk.None? then Missing
    else if fault == Some(ParseFailed) then ReadFailed(ParseFailed)
    else Loaded(disk.value)
  }

  function WriteOf(fails: bool): WriteOutcome {
    if fails then WriteFailed else Written
  }

  /** What storage holds after a handler's step: the written collection if the
      write succeeded, the old contents otherwise. */
  function Persist(disk: Option<Notes>, s: Step, w: WriteOutcome): (r: Option<Notes>)
    ensures w == WriteFailed || s.write.None? ==> r == disk
    ensures w == Written && s.write.Some? ==> r == s.write
  {
    if w == Written && s.write.Some? then s.write else disk
  }

  /** One event. Only names of saved notes are listed for opening, so an
      Open of any other name cannot be issued and is ignored. */
  function Apply(d: Device, ev: Event): (r: Device)
    ensures r.disk != d.disk ==> (ev.Save? || ev.Delete?) && !ev.writeFails
    ensures r.app.notes != d.app.notes ==> ev.Hydrate? || ((ev.Save? || ev.Delete?) && !ev.writeFails)
    ensures ev.Open? && ev.name !in d.app.notes ==> r == d
    ensures ev.Open? && ev.name in d.app.notes ==>
      r.app.draftName == ev.name && r.app.draftContent == d.app.notes[ev.name]
  {
    match ev
    case Hydrate(fault) => Device(LoadNotes(d.app, ReadFrom(d.disk, fault)).editor, d.disk)
    case TypeName(name) => d.(app := EditName(d.app, name))
    case TypeContent(content) => d.(app := EditContent(d.app, content))
    case Save(fails) =>
      var s := SaveNote(d.app, WriteOf(fails));
      Device(s.editor, Persist(d.disk, s, WriteOf(fails)))
    case Delete(name, fails) =>
      var s := DeleteNote(d.app, name, WriteOf(fails));
      Device(s.editor, Persist(d.disk, s, WriteOf(fails)))
    case Open(name) => if name in d.app.notes then d.(app := LoadNote(d.app, name)) else d
    case Clear => d.(app := ClearCurrentNote(d.app))
  }

  /** Events applied one after another. */
  function Run(d: Device, evs: seq<Event>): Device
    decreases |evs|
  {
    if evs == [] then d else Run(Apply(d, evs[0]), evs[1..])
  }

  /** Every event keeps memory and storage convergent: a write is adopted in
      memory exactly when storage accepted it, and a successful hydration
      copies storage into memory. */
  lemma ApplyKeepsConverged(d: Device, ev: Event)
    requires Converged(d)
    ensures Converged(Apply(d, ev))
  {
  }

  /** Convergence holds after any sequence of events. */
  lemma {:induction false} RunKeepsConverged(d: Device, evs: seq<Event>)
    requires Converged(d)
    ensures Converged(Run(d, evs))
    decreases |evs|
  {
    if evs != [] {
      ApplyKeepsConverged(d, evs[0]);
      RunKeepsConverged(Apply(d, evs[0]), evs[1..]);
    }
  }

  /** Mounting the app and hydrating without a fault brings memory in line
      with whatever storage holds. */
  lemma MountConverges(disk: Option<Notes>)
    ensures Converged(Apply(Device(Initial, disk), Hydrate(None)))
  {
  }

  /** A step whose storage write fails changes neither storage nor the
      committed collection, so later look-ups see the collection from before. */
  lemma FailedWriteIsolated(d: Device, ev: Event)
    requires (ev.Save? || ev.Delete?) && ev.writeFails
    ensures Apply(d, ev).disk == d.disk
    ensures Apply(d, ev).app == d.app
  {
  }

  /** A note saved in one run of the app is found, unchanged, by the
      hydration of the next run. */
  lemma SavedNoteSurvivesRestart(d: Device)
    requires !IsBlank(d.app.draftName)
    ensures var saved := Apply(d, Save(false));
      var next := Apply(Device(Initial, saved.disk), Hydrate(None));
      next.app.notes == saved.app.notes
      && d.app.draftName in next.app.notes
      && next.app.notes[d.app.draftName] == d.app.draftContent
  {
  }

  /** When hydration fails, memory keeps the empty collection of the mount
      while storage still holds the notes; the next successful save then
      persists a collection holding only the new note, and every note
      stored before is gone from storage. */
  lemma FailedHydrateThenSaveLosesNotes(stored: Notes, fault: ReadFault, name: string, content: string)
    requires !IsBlank(name)
    ensures var d := Run(Device(Initial, Some(stored)),
                         [Hydrate(Some(fault)), TypeName(name), TypeContent(content), Save(false)]);
      d.disk == Some(map[name := content])
      && (forall k :: k in stored && k != name ==> k !in d.disk.value)
  {
    var d0 := Device(Initial, Some(stored));
    var d1 := Apply(d0, Hydrate(Some(fault)));
    var d2 := Apply(d1, TypeName(name));
    var d3 := Apply(d2, TypeContent(content));
    var d4 := Apply(d3, Save(false));
    assert d3.app == Editor(name, content, map[]);
    assert Run(d0, [Hydrate(Some(fault)), TypeName(name), TypeContent(content), Save(false)])
        == Run(d1, [TypeName(name), TypeContent(content), Save(false)])
        == Run(d2, [TypeContent(content), Save(false)])
        == Run(d3, [Save(false)])
        == Run(d4, []);
  }

  /** Running two traces one after the other is running their concatenation. */
  lemma {:induction false} RunAppend(d: Device, a: seq<Event>, b: seq<Event>)
    ensures Run(d, a + b) == Run(Run(d, a), b)
    decreases |a|
  {
    if a != [] {
      assert (a + b)[1..] == a[1..] + b;
      RunAppend(Apply(d, a[0]), a[1..], b);
    } else {
      assert a + b == b;
    }
  }

  /** Typing a name and a body and saving them, with the write succeeding. */
  lemma TypeAndSave(d: Device, name: string, content: string)
    requires !IsBlank(name)
    ensures Run(d, [TypeName(name), TypeContent(content), Save(false)])
      == Device(Editor(name, content, d.app.notes[name := content]), Some(d.app.notes[name := content]))
  {
    var d1 := Apply(d, TypeName(name));
    var d2 := Apply(d1, TypeContent(content));
    var d3 := Apply(d2, Save(false));
    assert d3.app.notes == d.app.notes[name := content];
    assert Run(d, [TypeName(name), TypeContent(content), Save(false)])
        == Run(d1, [TypeContent(content), Save(false)])
        == Run(d2, [Save(false)])
        == Run(d3, []);
  }

  /** Deleting a note other than the draft, with the write succeeding. */
  lemma DeleteOther(d: Device, name: string)
    requires d.app.draftName != name
    ensures Run(d, [Delete(name, false)])
      == Device(d.app.(notes := d.app.notes - {name}), Some(d.app.notes - {name}))
  {
  }

  /** Two saves and a delete, for any two distinct names: from an empty device,
      save the first note, save the second, delete the first; only the second
      remains, with its content, in memory and on disk. */
  lemma SaveSaveDeleteScenario(a: string, ca: string, b: string, cb: string)
    requires !IsBlank(a) && !IsBlank(b) && a != b
    ensures var d := Run(Device(Initial, None),
        [TypeName(a), TypeContent(ca), Save(false)]
        + [TypeName(b), TypeContent(cb), Save(false)]
        + [Delete(a, false)]);
      d.app.notes.Keys == {b} && d.disk == Some(d.app.notes)
      && d.app.notes[b] == cb
  {
    var first := [TypeName(a), TypeContent(ca), Save(false)];
    var second := [TypeName(b), TypeContent(cb), Save(false)];
    var last := [Delete(a, false)];
    var d0 := Device(Initial, None);
    TypeAndSave(d0, a, ca);
    var d1 := Run(d0, first);
    TypeAndSave(d1, b, cb);
    var d2 := Run(d1, second);
    DeleteOther(d2, a);
    var d3 := Run(d2, last);
    assert d3.app.notes == map[b := cb];
    RunAppend(d0, first, second);
    RunAppend(d0, first + second, last);
  }

  /** Saving "Groceries" (milk, eggs) and "Todo" (call mom) on an empty
      device and then deleting "Groceries" leaves only "Todo", in memory and
      on disk. */
  lemma GroceriesScenario()
    ensures var d := Run(Device(Initial, None),
        [TypeName("Groceries"), TypeContent("milk, eggs"), Save(false)]
        + [TypeName("Todo"), TypeContent("call mom"), Save(false)]
        + [Delete("Groceries", false)]);
      d.app.notes.Keys == {"Todo"} && d.app.notes["Todo"] == "call mom"
      && d.disk == Some(d.app.notes)
  {
    NotBlankWithVisible("Groceries", 0);
    NotBlankWithVisible("Todo", 0);
    SaveSaveDeleteScenario("Groceries", "milk, eggs", "Todo", "call mom");
  }
}
