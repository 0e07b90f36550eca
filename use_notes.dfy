/** The notes hook (src/hooks/useNotes.js): the same note session as the notes page, with
    loading, saving and error state. A note is listed only when its folder holds an
    `index.html`, and notes are saved under the current id. */
module UseNotes {
  import opened Wrappers
  import opened Storage
  import opened Seqs

  /** A listed note: `{ id, name, path }`. */
  datatype Note = Note(id: string, name: string, path: string)

  /** The note a folder stands for. */
  function AsNote(folder: string): Note
  {
    Note(folder, folder, IndexPath(folder))
  }

  /** Whether the folder's `index.html` downloads: it is stored. */
  function HasIndex(bucket: Bucket): string -> bool
  {
    (folder: string) => IndexPath(folder) in bucket
  }

  function AsNotes(folders: seq<string>): (r: seq<Note>)
    ensures |r| == |folders| && forall i :: 0 <= i < |r| ==> r[i] == AsNote(folders[i])
  {
    seq(|folders|, i requires 0 <= i < |folders| => AsNote(folders[i]))
  }

  /** The notes `fetchNotes` keeps: the listed folders with an `index.html`, in listing
      order. */
  function ValidNotes(folders: seq<string>, bucket: Bucket): seq<Note>
  {
    AsNotes(Filter(folders, HasIndex(bucket)))
  }

  /** A note is listed exactly when its folder is listed and holds an `index.html`; the
      note's id and name are the folder's name and its path that file. */
  lemma ValidNotesExactly(folders: seq<string>, bucket: Bucket, n: Note)
    ensures n in ValidNotes(folders, bucket) <==>
              n.name in folders && IndexPath(n.name) in bucket && n == AsNote(n.name)
  {
    var kept := Filter(folders, HasIndex(bucket));
    FilterMembership(folders, HasIndex(bucket), n.name);
    if n.name in folders && IndexPath(n.name) in bucket && n == AsNote(n.name) {
      var i :| 0 <= i < |kept| && kept[i] == n.name;
      assert ValidNotes(folders, bucket)[i] == n;
    }
    if n in ValidNotes(folders, bucket) {
      var i :| 0 <= i < |kept| && ValidNotes(folders, bucket)[i] == n;
      assert kept[i] == n.name;
    }
  }

  /** The listing keeps the folders' order: the listed names are a subsequence of the
      folders. */
  lemma ValidNotesInOrder(folders: seq<string>, bucket: Bucket)
    ensures IsSubsequence(Filter(folders, HasIndex(bucket)), folders)
    ensures forall i :: 0 <= i < |ValidNotes(folders, bucket)| ==>
              ValidNotes(folders, bucket)[i].name == Filter(folders, HasIndex(bucket))[i]
  {
    FilterIsSubsequence(folders, HasIndex(bucket));
  }

  /** After a successful save the note is listed whenever its folder is: its
      `index.html` is then stored. */
  lemma SavedNoteIsListed(folders: seq<string>, bucket: Bucket, id: string, html: string)
    requires id in folders
    ensures AsNote(id) in ValidNotes(folders, Upload(bucket, IndexPath(id), html, Ok))
  {
    ValidNotesExactly(folders, Upload(bucket, IndexPath(id), html, Ok), AsNote(id));
  }

  const NoIdMessage: string := "Erro: ID da nota n\U{00E3}o definido. N\U{00E3}o \U{00E9} poss\U{00ED}vel salvar."

  class NotesHook {
    var notes: seq<Note>
    var selectedNote: Option<Note>
    var editorContent: string
    var isEditing: bool
    var isLoading: bool
    var isSaving: bool
    var errorMsg: string
    var noteId: string
    /** The notes bucket. */
    var bucket: Bucket

    /** The hook's initial state: loading, before the first fetch has settled. */
    constructor (bucket: Bucket)
      ensures notes == [] && selectedNote == None && editorContent == "" && !isEditing
      ensures isLoading && !isSaving && errorMsg == "" && noteId == "" && this.bucket == bucket
    {
      notes := [];
      selectedNote := None;
      editorContent := "";
      isEditing := false;
      isLoading := true;
      isSaving := false;
      errorMsg := "";
      noteId := "";
      this.bucket := bucket;
    }

    /** `fetchNotes`: keeps the listed folders whose `index.html` downloads, in order; a
        listing error keeps the notes and reports it. Loading ends either way. */
    method FetchNotes(listing: Listing)
      modifies this
      ensures !isLoading
      ensures listing.Listed? ==> notes == ValidNotes(listing.names, bucket) && errorMsg == old(errorMsg)
      ensures listing.ListFailed? ==> notes == old(notes) && errorMsg == "Falha ao buscar notas: " + listing.message
      ensures bucket == old(bucket) && selectedNote == old(selectedNote) && editorContent == old(editorContent)
      ensures isEditing == old(isEditing) && isSaving == old(isSaving) && noteId == old(noteId)
    {
      isLoading := true;
      if listing.ListFailed? {
        errorMsg := "Falha ao buscar notas: " + listing.message;
      } else {
        var folders := listing.names;
        var validNotes: seq<Note> := [];
        for i := 0 to |folders|
          invariant validNotes == ValidNotes(folders[..i], bucket)
          invariant isLoading && notes == old(notes) && errorMsg == old(errorMsg) && bucket == old(bucket)
          invariant selectedNote == old(selectedNote) && editorContent == old(editorContent)
          invariant isEditing == old(isEditing) && isSaving == old(isSaving) && noteId == old(noteId)
        {
          var path := folders[i] + "/index.html";
          assert folders[..i + 1] == folders[..i] + [folders[i]];
          FilterAppend(folders[..i], folders[i], HasIndex(bucket));
          if path in bucket {
            validNotes := validNotes + [Note(folders[i], folders[i], path)];
          }
        }
        assert folders[..|folders|] == folders;
        notes := validNotes;
      }
      isLoading := false;
    }

    /** `handleEdit`: opens the note at once, then loads its text from its public URL; a
        failed load reports the error. `fetched` is the text or the error message. */
    method HandleEdit(note: Note, fetched: Result)
      modifies this
      ensures isEditing && selectedNote == Some(note) && noteId == note.id && !isLoading
      ensures fetched.Text? ==> editorContent == fetched.text && errorMsg == old(errorMsg)
      ensures fetched.Error? ==> editorContent == old(editorContent)
                                 && errorMsg == "Falha ao carregar conte\U{00FA}do da nota: " + fetched.message
      ensures notes == old(notes) && bucket == old(bucket) && isSaving == old(isSaving)
    {
      isEditing := true;
      selectedNote := Some(note);
      noteId := note.id;
      isLoading := true;
      if fetched.Text? {
        editorContent := fetched.text;
      } else {
        errorMsg := "Falha ao carregar conte\U{00FA}do da nota: " + fetched.message;
      }
      isLoading := false;
    }

    /** `handleDelete`: nothing unless confirmed; then the note's HTML and its assets
        folder key are removed, and the list is refreshed, or the error is reported. */
    method HandleDelete(note: Note, confirmed: bool, removal: Outcome, listing: Listing)
      modifies this
      ensures !confirmed ==> bucket == old(bucket) && notes == old(notes) && errorMsg == old(errorMsg)
                             && isLoading == old(isLoading)
      ensures confirmed ==> !isLoading
                            && bucket == Remove(old(bucket), {IndexPath(note.id), note.id + "/assets/"}, removal)
      ensures confirmed && removal.Failed? ==> notes == old(notes) && errorMsg == "Falha ao deletar a nota: " + removal.message
      ensures confirmed && removal.Ok? && listing.Listed? ==>
                notes == ValidNotes(listing.names, bucket) && errorMsg == old(errorMsg)
      ensures confirmed && removal.Ok? && listing.ListFailed? ==>
                notes == old(notes) && errorMsg == "Falha ao buscar notas: " + listing.message
      ensures selectedNote == old(selectedNote) && editorContent == old(editorContent)
      ensures isEditing == old(isEditing) && isSaving == old(isSaving) && noteId == old(noteId)
    {
      if !confirmed {
        return;
      }
      isLoading := true;
      bucket := Remove(bucket, {note.id + "/index.html", note.id + "/assets/"}, removal);
      if removal.Failed? {
        errorMsg := "Falha ao deletar a nota: " + removal.message;
      } else {
        FetchNotes(listing);
      }
      isLoading := false;
    }

    /** `handleNewNote`: editing a new note with a fresh id (`uuidv4()`), nothing selected
        and an empty editor. */
    method HandleNewNote(newId: string)
      modifies this
      ensures isEditing && selectedNote == None && editorContent == "" && noteId == newId
      ensures notes == old(notes) && bucket == old(bucket) && errorMsg == old(errorMsg)
      ensures isLoading == old(isLoading) && isSaving == old(isSaving)
    {
      isEditing := true;
      selectedNote := None;
      editorContent := "";
      noteId := newId;
    }

    /** `handleSave`: without an id, only an error; otherwise the error is cleared and the
        HTML is uploaded to `<id>/index.html`, and the list is refreshed, or the error is
        reported. Saving ends either way. */
    method HandleSave(html: string, upload: Outcome, listing: Listing)
      modifies this
      ensures old(noteId) == "" ==> errorMsg == NoIdMessage && bucket == old(bucket) && notes == old(notes)
                                    && isSaving == old(isSaving) && isLoading == old(isLoading)
      ensures old(noteId) != "" ==> !isSaving && bucket == Upload(old(bucket), IndexPath(noteId), html, upload)
      ensures old(noteId) != "" && upload.Failed? ==> errorMsg == "Falha ao salvar a nota: " + upload.message
                                                      && notes == old(notes) && isLoading == old(isLoading)
      ensures old(noteId) != "" && upload.Ok? && listing.Listed? ==>
                errorMsg == "" && notes == ValidNotes(listing.names, bucket) && !isLoading
      ensures old(noteId) != "" && upload.Ok? && listing.ListFailed? ==>
                errorMsg == "Falha ao buscar notas: " + listing.message && notes == old(notes) && !isLoading
      ensures noteId == old(noteId) && selectedNote == old(selectedNote) && editorContent == old(editorContent)
      ensures isEditing == old(isEditing)
    {
      if noteId == "" {
        errorMsg := NoIdMessage;
        return;
      }
      isSaving := true;
      errorMsg := "";
      bucket := Upload(bucket, noteId + "/index.html", html, upload);
      if upload.Failed? {
        errorMsg := "Falha ao salvar a nota: " + upload.message;
      } else {
        FetchNotes(listing);
      }
      isSaving := false;
    }

    /** `handleCancelEdit`: back to the list with nothing selected, no id and no error. */
    method HandleCancelEdit()
      modifies this
      ensures !isEditing && selectedNote == None && editorContent == "" && noteId == "" && errorMsg == ""
      ensures notes == old(notes) && bucket == old(bucket) && isLoading == old(isLoading) && isSaving == old(isSaving)
    {
      isEditing := false;
      selectedNote := None;
      editorContent := "";
      noteId := "";
      errorMsg := "";
    }
  }

  /** What fetching a note's public URL gives: its text, or an error. */
  datatype Result = Text(text: string) | Error(message: string)
}
