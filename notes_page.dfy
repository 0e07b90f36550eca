/** The note list and editor page (src/components/NotesPage.jsx). It lists the folders of
    the notes bucket, opens a folder's `index.html` in the editor, saves the editor's HTML
    back and then deletes the note's uploaded files that the HTML no longer references. */
module NotesPage {
  import opened Wrappers
  import opened Storage

  /** One match of the `src` regex: the captured value and where the match ends
      (`lastIndex` afterwards). */
  datatype RegexMatch = RegexMatch(capture: string, end: nat)

  /** `regex.exec` from a given `lastIndex`; the pattern matches no empty string, so a
      match found from `i` ends after `i` and within the text. */
  type Exec = (string, nat) -> Option<RegexMatch>

  ghost predicate Advances(exec: Exec, html: string)
  {
    forall i: nat :: exec(html, i).Some? ==> i < exec(html, i).value.end <= |html|
  }

  /** The values the global regex captures from `from` on, in the order of the matches. */
  function Captures(exec: Exec, html: string, from: nat): seq<string>
    requires Advances(exec, html)
    decreases |html| - from
  {
    match exec(html, from)
    case None => []
    case Some(m) => [m.capture] + Captures(exec, html, m.end)
  }

  /** The paths of the listed files of a note whose public URL is not among the `src`
      values: the files the cleanup removes. */
  function Unused(noteId: string, files: seq<string>, srcs: seq<string>, publicUrl: string -> string): set<string>
  {
    set f | f in files && publicUrl(AssetPath(noteId, f)) !in srcs :: AssetPath(noteId, f)
  }

  /** The files removed are exactly the listed ones the HTML does not reference: a
      referenced file is never removed, and only files of the note's assets are. */
  lemma UnusedExactly(noteId: string, files: seq<string>, srcs: seq<string>, publicUrl: string -> string, f: string)
    requires f in files
    ensures AssetPath(noteId, f) in Unused(noteId, files, srcs, publicUrl) <==> publicUrl(AssetPath(noteId, f)) !in srcs
  {
    if AssetPath(noteId, f) in Unused(noteId, files, srcs, publicUrl) {
      var g :| g in files && publicUrl(AssetPath(noteId, g)) !in srcs && AssetPath(noteId, g) == AssetPath(noteId, f);
      AssetPathInjective(noteId, f, g);
    }
  }

  /** The note's own HTML is never among the removed files. */
  lemma CleanupKeepsNote(noteId: string, files: seq<string>, srcs: seq<string>, publicUrl: string -> string)
    ensures IndexPath(noteId) !in Unused(noteId, files, srcs, publicUrl)
  {
    forall f | f in files
      ensures IndexPath(noteId) != AssetPath(noteId, f)
    {
      IndexIsNoAsset(noteId, f);
    }
  }

  lemma UnusedStep(noteId: string, files: seq<string>, i: nat, srcs: seq<string>, publicUrl: string -> string)
    requires i < |files|
    ensures Unused(noteId, files[..i + 1], srcs, publicUrl)
            == Unused(noteId, files[..i], srcs, publicUrl)
               + (if publicUrl(AssetPath(noteId, files[i])) !in srcs then {AssetPath(noteId, files[i])} else {})
  {
    assert files[..i + 1] == files[..i] + [files[i]];
  }

  /** The bucket after the save as written: the note's HTML is removed, then uploaded. */
  function SavedAsWritten(bucket: Bucket, path: string, html: string, removal: Outcome, upload: Outcome): Bucket
  {
    Upload(Remove(bucket, {path}, removal), path, html, upload)
  }

  /** The bucket after a save that only uploads, which `upsert` makes an overwrite. */
  function Saved(bucket: Bucket, path: string, html: string, upload: Outcome): (r: Bucket)
    ensures upload.Ok? ==> path in r && r[path] == html
    ensures upload.Failed? ==> r == bucket
  {
    Upload(bucket, path, html, upload)
  }

  /** As written, a save whose upload fails after the old HTML was removed loses the
      note: the stored HTML is gone. */
  lemma FailedSaveLosesNote(bucket: Bucket, name: string, html: string, message: string)
    requires IndexPath(name) in bucket
    ensures IndexPath(name) !in SavedAsWritten(bucket, IndexPath(name), html, Ok, Failed(message))
  {
  }

  /** A save that only uploads keeps the stored note when the upload fails, and stores
      the same as the save as written when it succeeds. */
  lemma SaveKeepsNoteOnFailure(bucket: Bucket, path: string, html: string, removal: Outcome, upload: Outcome)
    ensures upload.Failed? ==> Saved(bucket, path, html, upload) == bucket
    ensures upload.Ok? ==> Saved(bucket, path, html, upload) == SavedAsWritten(bucket, path, html, removal, upload)
  {
    if upload.Ok? {
      var a, b := Saved(bucket, path, html, upload), SavedAsWritten(bucket, path, html, removal, upload);
      assert a.Keys == b.Keys;
    }
  }

  class NotesPage {
    /** The names of the listed folders. */
    var notes: seq<string>
    /** The name of the note open in the editor, if it was opened from the list. */
    var selectedNote: Option<string>
    var editorContent: string
    var isEditing: bool
    var noteId: string
    /** The notes bucket. */
    var bucket: Bucket

    constructor (bucket: Bucket)
      ensures notes == [] && selectedNote == None && editorContent == "" && !isEditing && noteId == ""
      ensures this.bucket == bucket
    {
      notes := [];
      selectedNote := None;
      editorContent := "";
      isEditing := false;
      noteId := "";
      this.bucket := bucket;
    }

    /** `fetchNotes`: the listed folders become the notes; a listing error changes nothing. */
    method FetchNotes(listing: Listing)
      modifies this
      ensures listing.Listed? ==> notes == listing.names
      ensures listing.ListFailed? ==> notes == old(notes)
      ensures selectedNote == old(selectedNote) && editorContent == old(editorContent)
      ensures isEditing == old(isEditing) && noteId == old(noteId) && bucket == old(bucket)
    {
      if listing.Listed? {
        notes := listing.names;
      }
    }

    /** `handleEdit`: the id is set at once; the note is opened only when its HTML can be
        downloaded (the query string added against caching does not change the key). */
    method HandleEdit(name: string)
      modifies this
      ensures noteId == name && notes == old(notes) && bucket == old(bucket)
      ensures IndexPath(name) in bucket ==>
                editorContent == bucket[IndexPath(name)] && selectedNote == Some(name) && isEditing
      ensures IndexPath(name) !in bucket ==>
                editorContent == old(editorContent) && selectedNote == old(selectedNote) && isEditing == old(isEditing)
    {
      noteId := name;
      var filePath := name + "/index.html";
      if filePath in bucket {
        editorContent := bucket[filePath];
        selectedNote := Some(name);
        isEditing := true;
      }
    }

    /** `handleDelete`: once confirmed, the note's HTML is removed; only a successful
        removal refreshes the list. Its assets stay. */
    method HandleDelete(name: string, confirmed: bool, removal: Outcome, listing: Listing)
      modifies this
      ensures !confirmed ==> bucket == old(bucket) && notes == old(notes)
      ensures confirmed ==> bucket == Remove(old(bucket), {IndexPath(name)}, removal)
      ensures confirmed && removal.Ok? && listing.Listed? ==> notes == listing.names
      ensures !(confirmed && removal.Ok? && listing.Listed?) ==> notes == old(notes)
      ensures selectedNote == old(selectedNote) && editorContent == old(editorContent)
      ensures isEditing == old(isEditing) && noteId == old(noteId)
    {
      if confirmed {
        bucket := Remove(bucket, {name + "/index.html"}, removal);
        if removal.Ok? {
          FetchNotes(listing);
        }
      }
    }

    /** `handleNewNote`: a new note with a fresh id (`uuidv4()`), nothing selected and an
        empty editor. */
    method HandleNewNote(newId: string)
      modifies this
      ensures noteId == newId && selectedNote == None && editorContent == "" && isEditing
      ensures notes == old(notes) && bucket == old(bucket)
    {
      noteId := newId;
      selectedNote := None;
      editorContent := "";
      isEditing := true;
    }

    /** `cleanupUnusedImages`: collects the `src` values of the HTML with the global
        regex, lists the note's assets and removes each one whose public URL is not
        among them. A listing error removes nothing. */
    method CleanupUnusedImages(id: string, html: string, exec: Exec, assets: Listing, publicUrl: string -> string)
      requires Advances(exec, html)
      modifies this
      ensures assets.ListFailed? ==> bucket == old(bucket)
      ensures assets.Listed? ==> bucket == old(bucket) - Unused(id, assets.names, Captures(exec, html, 0), publicUrl)
      ensures notes == old(notes) && selectedNote == old(selectedNote) && editorContent == old(editorContent)
      ensures isEditing == old(isEditing) && noteId == old(noteId)
    {
      var imgSrcs: seq<string> := [];
      var lastIndex: nat := 0;
      var found := exec(html, lastIndex);
      while found.Some?
        invariant lastIndex <= |html| && found == exec(html, lastIndex)
        invariant imgSrcs + Captures(exec, html, lastIndex) == Captures(exec, html, 0)
        decreases |html| - lastIndex
      {
        imgSrcs := imgSrcs + [found.value.capture];
        lastIndex := found.value.end;
        found := exec(html, lastIndex);
      }
      if assets.ListFailed? {
        return;
      }
      var files := assets.names;
      for i := 0 to |files|
        invariant bucket == old(bucket) - Unused(id, files[..i], imgSrcs, publicUrl)
        invariant notes == old(notes) && selectedNote == old(selectedNote) && editorContent == old(editorContent)
        invariant isEditing == old(isEditing) && noteId == old(noteId)
      {
        var filePath := id + "/assets/" + files[i];
        var url := publicUrl(filePath);
        UnusedStep(id, files, i, imgSrcs, publicUrl);
        if url !in imgSrcs {
          bucket := bucket - {filePath};
        }
      }
      assert files[..|files|] == files;
    }

    /** The name `handleSave` saves under: the selected note's, otherwise the current id. */
    function CurrentNoteName(): (r: string)
      reads this
      ensures selectedNote.Some? ==> r == selectedNote.value
      ensures selectedNote.None? ==> r == noteId
    {
      if selectedNote.Some? then selectedNote.value else noteId
    }

    /** `handleSave` as written: without a name nothing happens; otherwise the note's HTML
        is removed, then uploaded; only a successful upload cleans up the assets, leaves
        editing and refreshes the list. */
    method HandleSaveAsWritten(html: string, removal: Outcome, upload: Outcome,
                               exec: Exec, assets: Listing, publicUrl: string -> string, listing: Listing)
      requires Advances(exec, html)
      modifies this
      ensures var name := old(CurrentNoteName());
              name == "" ==> bucket == old(bucket) && isEditing == old(isEditing) && notes == old(notes)
      ensures var name := old(CurrentNoteName());
              name != "" && upload.Failed? ==>
                bucket == SavedAsWritten(old(bucket), IndexPath(name), html, removal, upload)
                && isEditing == old(isEditing) && notes == old(notes)
      ensures var name := old(CurrentNoteName());
              name != "" && upload.Ok? ==>
                bucket == SavedAsWritten(old(bucket), IndexPath(name), html, removal, upload)
                          - (if assets.Listed? then Unused(name, assets.names, Captures(exec, html, 0), publicUrl) else {})
                && !isEditing
                && notes == (if listing.Listed? then listing.names else old(notes))
      ensures selectedNote == old(selectedNote) && editorContent == old(editorContent) && noteId == old(noteId)
    {
      var currentNoteName := if selectedNote.Some? then selectedNote.value else noteId;
      if currentNoteName == "" {
        return;
      }
      var filePath := currentNoteName + "/index.html";
      bucket := Remove(bucket, {filePath}, removal);
      bucket := Upload(bucket, filePath, html, upload);
      if upload.Ok? {
        CleanupUnusedImages(currentNoteName, html, exec, assets, publicUrl);
        isEditing := false;
        FetchNotes(listing);
      }
    }

    /** `handleSave` without the removal before the upload: a failed upload leaves the
        bucket as it was, and a successful one stores the HTML and keeps the note through
        the cleanup. */
    method HandleSave(html: string, upload: Outcome,
                      exec: Exec, assets: Listing, publicUrl: string -> string, listing: Listing)
      requires Advances(exec, html)
      modifies this
      ensures var name := old(CurrentNoteName());
              name == "" || upload.Failed? ==> bucket == old(bucket) && isEditing == old(isEditing) && notes == old(notes)
      ensures var name := old(CurrentNoteName());
              name != "" && upload.Ok? ==>
                bucket == Saved(old(bucket), IndexPath(name), html, upload)
                          - (if assets.Listed? then Unused(name, assets.names, Captures(exec, html, 0), publicUrl) else {})
                && IndexPath(name) in bucket && bucket[IndexPath(name)] == html
                && !isEditing
                && notes == (if listing.Listed? then listing.names else old(notes))
      ensures selectedNote == old(selectedNote) && editorContent == old(editorContent) && noteId == old(noteId)
    {
      var currentNoteName := if selectedNote.Some? then selectedNote.value else noteId;
      if currentNoteName == "" {
        return;
      }
      var filePath := currentNoteName + "/index.html";
      bucket := Upload(bucket, filePath, html, upload);
      if upload.Ok? {
        CleanupUnusedImages(currentNoteName, html, exec, assets, publicUrl);
        if assets.Listed? {
          CleanupKeepsNote(currentNoteName, assets.names, Captures(exec, html, 0), publicUrl);
        }
        isEditing := false;
        FetchNotes(listing);
      }
    }
  }
}
