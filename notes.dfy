/**
  * The notes page: a list of notes and an editing dialog. Opening the dialog
  * on a note loads it for editing, opening it on nothing starts a new note;
  * saving rejects a blank title, replaces the edited note or puts the new one
  * in front, and closes the dialog; deleting drops the notes with an id.
  *
  * The date a save stamps and the id a new note gets (the source derives both
  * from the clock) are parameters of the save.
  */
module Notes {
  import opened Collections
  import opened Text
  import opened MockData

  // ---------------------------------------------------------------------------
  // the lists a save or a delete builds
  // ---------------------------------------------------------------------------

  /**
    * `notes.map(note => note.id === id ? { ...note, title, content, date } : note)`:
    * every note with that id gets the new text and date and keeps its id; the
    * others, and the order, stay as they were.
    */
  function WithEdit(notes: seq<Note>, id: string, title: string, content: string, date: int): (r: seq<Note>)
    ensures |r| == |notes|
    ensures forall i :: 0 <= i < |r| && notes[i].id == id ==> r[i] == Note(id, title, content, date)
    ensures forall i :: 0 <= i < |r| && notes[i].id != id ==> r[i] == notes[i]
  {
    seq(|notes|, i requires 0 <= i < |notes| =>
      if notes[i].id == id then notes[i].(title := title, content := content, date := date) else notes[i])
  }

  function IdIsNot(id: string): Note -> bool
  {
    (n: Note) => n.id != id
  }

  /** `notes.filter(note => note.id !== id)`. */
  function Without(notes: seq<Note>, id: string): (r: seq<Note>)
    ensures |r| <= |notes|
    ensures forall n :: n in r <==> n in notes && n.id != id
    ensures forall n :: multiset(r)[n] == if n.id != id then multiset(notes)[n] else 0
  {
    FilterMembers(notes, IdIsNot(id));
    Filter(notes, IdIsNot(id))
  }

  function Ids(notes: seq<Note>): (r: seq<string>)
    ensures |r| == |notes| && forall i :: 0 <= i < |r| ==> r[i] == notes[i].id
  {
    seq(|notes|, i requires 0 <= i < |notes| => notes[i].id)
  }

  ghost predicate UniqueIds(notes: seq<Note>)
  {
    forall i, j :: 0 <= i < j < |notes| ==> notes[i].id != notes[j].id
  }

  /** An edit leaves the ids where they were. */
  lemma WithEditKeepsIds(notes: seq<Note>, id: string, title: string, content: string, date: int)
    ensures Ids(WithEdit(notes, id, title, content, date)) == Ids(notes)
  {
  }

  /** Saving the same edit twice is saving it once. */
  lemma WithEditIdempotent(notes: seq<Note>, id: string, title: string, content: string, date: int)
    ensures var once := WithEdit(notes, id, title, content, date);
            WithEdit(once, id, title, content, date) == once
  {
  }

  /** Editing a note that is no longer in the list (it was deleted meanwhile) changes nothing. */
  lemma WithEditAbsent(notes: seq<Note>, id: string, title: string, content: string, date: int)
    requires id !in Ids(notes)
    ensures WithEdit(notes, id, title, content, date) == notes
  {
    assert forall i :: 0 <= i < |notes| ==> notes[i].id != id by {
      forall i | 0 <= i < |notes|
        ensures notes[i].id != id
      {
        assert Ids(notes)[i] == notes[i].id;
      }
    }
  }

  /** With unique ids an edit changes exactly one note, the one with that id. */
  lemma WithEditChangesOne(notes: seq<Note>, k: nat, title: string, content: string, date: int)
    requires UniqueIds(notes) && k < |notes|
    ensures var r := WithEdit(notes, notes[k].id, title, content, date);
            && r[k] == Note(notes[k].id, title, content, date)
            && forall i :: 0 <= i < |notes| && i != k ==> r[i] == notes[i]
  {
  }

  /** A delete keeps the survivors in their order: it distributes over concatenation. */
  lemma WithoutInOrder(a: seq<Note>, b: seq<Note>, id: string)
    ensures Without(a + b, id) == Without(a, id) + Without(b, id)
  {
    FilterConcat(a, b, IdIsNot(id));
  }

  /** After a delete no note carries the id, and deleting again changes nothing. */
  lemma WithoutRemovesAll(notes: seq<Note>, id: string)
    ensures forall i :: 0 <= i < |Without(notes, id)| ==> Without(notes, id)[i].id != id
    ensures Without(Without(notes, id), id) == Without(notes, id)
  {
    var r := Without(notes, id);
    assert forall i :: 0 <= i < |r| ==> r[i] in r;
    FilterIdempotent(notes, IdIsNot(id));
  }

  /** Deleting an id no note has changes nothing. */
  lemma WithoutAbsent(notes: seq<Note>, id: string)
    requires forall i :: 0 <= i < |notes| ==> notes[i].id != id
    ensures Without(notes, id) == notes
  {
    FilterKeepsAll(notes, IdIsNot(id));
  }

  /** A filtered list keeps ids unique. */
  lemma {:induction false} FilterKeepsUnique(notes: seq<Note>, p: Note -> bool)
    requires UniqueIds(notes)
    ensures UniqueIds(Filter(notes, p))
  {
    if notes != [] {
      var tail := notes[1..];
      assert UniqueIds(tail) by {
        forall i, j | 0 <= i < j < |tail|
          ensures tail[i].id != tail[j].id
        {
          assert tail[i] == notes[i + 1] && tail[j] == notes[j + 1];
        }
      }
      FilterKeepsUnique(tail, p);
      FilterMembers(tail, p);
      var rest := Filter(tail, p);
      if p(notes[0]) {
        var r := [notes[0]] + rest;
        forall i, j | 0 <= i < j < |r|
          ensures r[i].id != r[j].id
        {
          if i == 0 {
            assert r[j] in tail;
            var k :| 0 <= k < |tail| && tail[k] == r[j];
            assert notes[k + 1] == r[j];
          } else {
            assert r[i] == rest[i - 1] && r[j] == rest[j - 1];
          }
        }
      }
    }
  }

  /** Saves and deletes keep note ids unique, provided a new note gets an id not yet in use. */
  lemma OperationsKeepUnique(notes: seq<Note>, id: string, newId: string, title: string, content: string, date: int)
    requires UniqueIds(notes)
    ensures UniqueIds(WithEdit(notes, id, title, content, date))
    ensures UniqueIds(Without(notes, id))
    ensures newId !in Ids(notes) ==> UniqueIds([Note(newId, title, content, date)] + notes)
  {
    FilterKeepsUnique(notes, IdIsNot(id));
    if newId !in Ids(notes) {
      var r := [Note(newId, title, content, date)] + notes;
      forall i, j | 0 <= i < j < |r|
        ensures r[i].id != r[j].id
      {
        assert r[j] == notes[j - 1];
        if i == 0 {
          assert Ids(notes)[j - 1] == r[j].id;
        }
      }
    }
  }

  // ---------------------------------------------------------------------------
  // the page's state
  // ---------------------------------------------------------------------------

  datatype SaveOutcome = BlankTitle | Updated | Created

  /** A title is accepted when it is not empty once trimmed, i.e. not all white space. */
  predicate AcceptedTitle(title: string)
  {
    Trim(title) != []
  }

  lemma AcceptedTitleIff(title: string)
    ensures AcceptedTitle(title) <==> exists i :: 0 <= i < |title| && !IsSpace(title[i])
  {
    TrimEmptyIff(title);
  }

  class NotesEditor {
    var notes: seq<Note>
    var openDialog: bool
    var selectedNote: Option<Note>
    var title: string
    var content: string

    /** The initial state: the seed notes, the dialog closed and empty. */
    constructor (initial: seq<Note>)
      ensures notes == initial && !openDialog && selectedNote == None && title == "" && content == ""
    {
      notes := initial;
      openDialog := false;
      selectedNote := None;
      title := "";
      content := "";
    }

    /** Opens the dialog on `note` to edit it, or on nothing to write a new note. */
    method OpenDialog(note: Option<Note>)
      modifies this`selectedNote, this`title, this`content, this`openDialog
      ensures selectedNote == note && openDialog
      ensures note.Some? ==> title == note.value.title && content == note.value.content
      ensures note.None? ==> title == "" && content == ""
    {
      if note.Some? {
        selectedNote := note;
        title := note.value.title;
        content := note.value.content;
      } else {
        selectedNote := None;
        title := "";
        content := "";
      }
      openDialog := true;
    }

    /** Typing in the title field. */
    method SetTitle(text: string)
      modifies this`title
      ensures title == text
    {
      title := text;
    }

    /** Typing in the content field. */
    method SetContent(text: string)
      modifies this`content
      ensures content == text
    {
      content := text;
    }

    /** The cancel button and the dialog's own close control. */
    method SetOpenDialog(open: bool)
      modifies this`openDialog
      ensures openDialog == open
    {
      openDialog := open;
    }

    /**
      * The save button. A blank title changes nothing. Otherwise the edited
      * note is rewritten in place, or a new note `newId` is put in front, both
      * stamped with `today`, and the dialog closes.
      */
    method SaveNote(today: int, newId: string) returns (outcome: SaveOutcome)
      modifies this`notes, this`openDialog
      ensures !AcceptedTitle(title) ==> outcome == BlankTitle && notes == old(notes) && openDialog == old(openDialog)
      ensures AcceptedTitle(title) && selectedNote.Some? ==>
                && outcome == Updated && !openDialog
                && notes == WithEdit(old(notes), selectedNote.value.id, title, content, today)
      ensures AcceptedTitle(title) && selectedNote.None? ==>
                && outcome == Created && !openDialog
                && notes == [Note(newId, title, content, today)] + old(notes)
    {
      if Trim(title) == [] {
        return BlankTitle;
      }
      if selectedNote.Some? {
        notes := WithEdit(notes, selectedNote.value.id, title, content, today);
        outcome := Updated;
      } else {
        notes := [Note(newId, title, content, today)] + notes;
        outcome := Created;
      }
      openDialog := false;
    }

    /** The delete button of a note card. */
    method DeleteNote(id: string)
      modifies this`notes
      ensures notes == Without(old(notes), id)
    {
      notes := Without(notes, id);
    }
  }
}
