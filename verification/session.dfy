/**
  The view model's session state machine
  (SimpleNote/.../ui/MainViewModel.kt).

  The view model's observable values become one immutable `Session` record.
  Every public operation is a transition that returns the new record together
  with the calls it makes on the data helper (`Call`); it does not wait for
  them. Each call's completion callback is a separate transition (`On…`) that
  consumes the store's result and may issue further calls. Nothing orders the
  callbacks of independent calls, and no callback checks whether its result is
  still current: a late result is published like any other.

  The observer the view model installs on the selected folder is modelled at
  each place that publishes a folder selection: publishing a folder issues a
  note fetch for that folder.
 */
module Session {
  import opened Options
  import opened Models
  import Seqs
  import Store

  datatype Session = Session(
    currentUserId: Option<string>,
    selectedFolder: Option<Folder>,
    selectedNote: Option<Note>,
    folders: Option<seq<Folder>>,
    notes: Option<seq<Note>>,
    defaultFolderId: Option<string>,
    defaultFolder: Option<Folder>,
    status: Option<string>,
    message: Option<string>)

  /** The state before any event: every observable value is still null. */
  const Initial: Session := Session(None, None, None, None, None, None, None, None, None)

  /** The user id the authentication provider reports while nobody is signed in. */
  const SignedOutUid: string := "-1"

  const RenameRefusal: string := "Cannot Rename Default Folder."
  const DeleteRefusal: string := "Cannot delete the default folder."

  /**
    A call the view model makes and does not wait for: one per data-helper
    method it uses, plus the sign-out it asks of the authentication provider.
   */
  datatype Call =
    | LookUpDefault(userId: string)                  // ensureDefaultFolder
    | QueryFolders(userId: string)                   // getFolders
    | QueryNotes(userId: string, folderId: string)   // getNotesForFolder
    | CreateFolder(folder: Folder, userId: string)   // addFolder
    | CreateNote(note: Note, userId: string)         // addNote
    | EditNote(noteId: string, note: Note)           // updateNote
    | RemoveNote(noteId: string)                     // deleteNote
    | NameFolder(folderId: string, newName: string)  // renameFolder
    | RemoveFolder(folderId: string)                 // deleteFolder
    | ClearFolder(userId: string, folderId: string)  // deleteNotesInFolder(userId, folderId)
    | SignOut                                        // the provider's logout

  /** The outcome of a transition: the new session and the calls it issued, in order. */
  datatype Step = Step(session: Session, calls: seq<Call>)

  /** A call that changes the remote store (as opposed to a query or the sign-out). */
  predicate Mutates(c: Call)
  {
    !(c.QueryFolders? || c.QueryNotes? || c.SignOut?)
  }

  // ------------------------------------------------------------- fetches

  /** `fetchNotesForFolder`: a note query for the signed-in user, or nothing when signed out. */
  function FetchNotesForFolder(s: Session, folderId: string): (r: Step)
    ensures r.session == s
    ensures s.currentUserId.Some? ==> r.calls == [QueryNotes(s.currentUserId.value, folderId)]
    ensures s.currentUserId.None? ==> r.calls == []
  {
    Step(s, if s.currentUserId.Some? then [QueryNotes(s.currentUserId.value, folderId)] else [])
  }

  /** `fetchFolders`: a folder query for the signed-in user, or nothing when signed out. */
  function FetchFolders(s: Session): (r: seq<Call>)
    ensures s.currentUserId.Some? ==> r == [QueryFolders(s.currentUserId.value)]
    ensures s.currentUserId.None? ==> r == []
  {
    if s.currentUserId.Some? then [QueryFolders(s.currentUserId.value)] else []
  }

  /** The selected-folder observer: publishing a folder fetches its notes. */
  function Observe(s: Session, selected: Option<Folder>): seq<Call>
  {
    if selected.Some? then FetchNotesForFolder(s, selected.value.id).calls else []
  }

  /** A folder the published folder list may show: neither the default id nor the default name. */
  predicate Listed(s: Session, f: Folder)
  {
    Some(f.id) != s.defaultFolderId && f.name != DefaultFolderName
  }

  /** The published folder list never shows a folder named "Default". */
  predicate DefaultNotListed(s: Session)
  {
    s.folders.Some? ==> forall f :: f in s.folders.value ==> f.name != DefaultFolderName
  }

  /** Callback of `getFolders`: publish the fetched list without the default folder, or null. */
  function OnFoldersFetched(s: Session, fetched: Option<seq<Folder>>): (r: Session)
    ensures r.folders.Some? <==> fetched.Some?
    ensures fetched.Some? ==> Seqs.IsSubsequence(r.folders.value, fetched.value)
    ensures fetched.Some? ==> forall f :: f in r.folders.value <==> f in fetched.value && Listed(s, f)
    ensures fetched.Some? ==> forall f :: multiset(r.folders.value)[f] == if Listed(s, f) then multiset(fetched.value)[f] else 0
    ensures fetched.Some? ==> forall f :: f in r.folders.value ==> f.name != DefaultFolderName && Some(f.id) != s.defaultFolderId
    ensures r.(folders := s.folders) == s
  {
    if fetched.None? then s.(folders := None)
    else
      var keep := (f: Folder) => Listed(s, f);
      Seqs.FilterIsSubsequence(fetched.value, keep);
      s.(folders := Some(Seqs.Filter(fetched.value, keep)))
  }

  /**
    Callback of `getNotesForFolder`: publish the result as it is. There is no
    check that the folder is still the selected one, and a failed query
    publishes null.
   */
  function OnNotesFetched(s: Session, fetched: Option<seq<Note>>): (r: Session)
    ensures r.notes == fetched
    ensures r.(notes := s.notes) == s
  {
    s.(notes := fetched)
  }

  // ------------------------------------------------------ authentication

  /** The condition under which an authentication event re-initialises the session. */
  predicate Reinitialises(s: Session, uid: string)
  {
    uid != SignedOutUid && s.currentUserId != Some(uid)
  }

  /**
    `listenToAuthState`, for one reported user: a signed-in user other than the
    current one becomes current and the user-dependent state is requested:
    the default folder, the folder list and, if a folder is selected, its notes.
    Any other event changes nothing.
   */
  function OnAuthUser(s: Session, uid: string): (r: Step)
    ensures Reinitialises(s, uid) ==> r.session == s.(currentUserId := Some(uid))
    ensures Reinitialises(s, uid) ==>
      && |r.calls| >= 2
      && r.calls[0] == LookUpDefault(uid) && r.calls[1] == QueryFolders(uid)
      && (s.selectedFolder.Some? ==> r.calls == [r.calls[0], r.calls[1], QueryNotes(uid, s.selectedFolder.value.id)])
      && (s.selectedFolder.None? ==> |r.calls| == 2)
    ensures !Reinitialises(s, uid) ==> r == Step(s, [])
    ensures forall c :: c in r.calls ==> !Mutates(c) || c.LookUpDefault?
  {
    if Reinitialises(s, uid) then
      var s' := s.(currentUserId := Some(uid));
      Step(s', [LookUpDefault(uid)] + FetchFolders(s') + Observe(s', s.selectedFolder))
    else Step(s, [])
  }

  /**
    `handleUserLogout`: forget the current user and publish empty lists, then
    sign out. The selections and the default folder are left as they were.
   */
  function HandleUserLogout(s: Session): (r: Step)
    ensures r.session.currentUserId.None?
    ensures r.session.notes == Some([]) && r.session.folders == Some([])
    ensures r.session.(currentUserId := s.currentUserId, notes := s.notes, folders := s.folders) == s
    ensures r.calls == [SignOut]
    ensures forall c :: c in r.calls ==> !Mutates(c)
  {
    Step(s.(currentUserId := None, notes := Some([]), folders := Some([])), [SignOut])
  }

  /** Re-sending the current user changes nothing, so authentication events are idempotent. */
  lemma {:induction false} AuthEventIdempotent(s: Session, uid: string)
    ensures var once := OnAuthUser(s, uid).session;
      OnAuthUser(once, uid) == Step(once, [])
  {
  }

  /** After a logout the same user signing in again re-initialises the session. */
  lemma {:induction false} LogoutThenLoginReinitialises(s: Session, uid: string)
    requires uid != SignedOutUid
    ensures var out := HandleUserLogout(s).session;
      OnAuthUser(out, uid).session.currentUserId == Some(uid)
      && LookUpDefault(uid) in OnAuthUser(out, uid).calls
  {
    var out := HandleUserLogout(s).session;
    assert Reinitialises(out, uid);
    assert OnAuthUser(out, uid).calls[0] == LookUpDefault(uid);
  }

  // ------------------------------------------------------ default folder

  /**
    Callback of `ensureDefaultFolder`: on success the returned id becomes the
    default folder, which is also selected (and so its notes are fetched).
   */
  function OnDefaultFolder(s: Session, found: bool, folderId: string): (r: Step)
    ensures found ==> var f := Folder(id := folderId, name := DefaultFolderName);
      && r.session.defaultFolderId == Some(folderId)
      && r.session.selectedFolder == Some(f) && r.session.defaultFolder == Some(f)
      && r.session.(selectedFolder := s.selectedFolder, defaultFolder := s.defaultFolder, defaultFolderId := s.defaultFolderId) == s
      && (s.currentUserId.Some? ==> r.calls == [QueryNotes(s.currentUserId.value, folderId)])
      && (s.currentUserId.None? ==> r.calls == [])
    ensures !found ==> r == Step(s, [])
  {
    if found then
      var f := Folder(id := folderId, name := DefaultFolderName);
      Step(s.(selectedFolder := Some(f), defaultFolder := Some(f), defaultFolderId := Some(folderId)), Observe(s, Some(f)))
    else Step(s, [])
  }

  // -------------------------------------------------------------- folders

  /** The user picks a folder: it becomes selected and its notes are fetched. */
  function SelectFolder(s: Session, f: Folder): (r: Step)
    ensures r.session == s.(selectedFolder := Some(f))
    ensures s.currentUserId.Some? ==> r.calls == [QueryNotes(s.currentUserId.value, f.id)]
    ensures s.currentUserId.None? ==> r.calls == []
  {
    Step(s.(selectedFolder := Some(f)), Observe(s, Some(f)))
  }

  /** `addFolder`: only a signed-in user can create a folder. */
  function AddFolder(s: Session, folder: Folder): (r: Step)
    ensures r.session == s
    ensures s.currentUserId.Some? ==> r.calls == [CreateFolder(folder, s.currentUserId.value)]
    ensures s.currentUserId.None? ==> r.calls == []
  {
    if s.currentUserId.Some? then Step(s, [CreateFolder(folder, s.currentUserId.value)]) else Step(s, [])
  }

  /**
    Callback of `addFolder`. On success the folder list is refreshed and the
    submitted folder object is selected: it carries the owner the helper wrote
    into it, but not the id the store returned.
   */
  function OnFolderAdded(s: Session, folder: Folder, userId: string, success: bool, folderId: string): (r: Step)
    ensures success ==> r.session.selectedFolder == Some(Store.Owned(folder, userId))
    ensures success ==> r.session.selectedFolder.value.id == folder.id
    ensures success ==> r.session.status == Some("Folder added successfully")
    ensures success && s.currentUserId.Some? ==>
      r.calls == [QueryFolders(s.currentUserId.value), QueryNotes(s.currentUserId.value, folder.id)]
    ensures s.currentUserId.None? ==> r.calls == []
    ensures forall c :: c in r.calls ==> !Mutates(c)
    ensures !success ==> r == Step(s.(status := Some("Failed to add folder")), [])
    ensures r.session.(selectedFolder := s.selectedFolder, status := s.status) == s
  {
    if success then
      var selected := Store.Owned(folder, userId);
      Step(s.(selectedFolder := Some(selected), status := Some("Folder added successfully")),
           FetchFolders(s) + Observe(s, Some(selected)))
    else Step(s.(status := Some("Failed to add folder")), [])
  }

  /** `renameFolder`: refused, without any call, for the default folder. */
  function RenameFolder(s: Session, folderId: string, newName: string): (r: Step)
    ensures Some(folderId) == s.defaultFolderId ==>
      && r.calls == []
      && r.session.status == Some(RenameRefusal) && r.session.message == Some(RenameRefusal)
      && r.session.(status := s.status, message := s.message) == s
    ensures Some(folderId) != s.defaultFolderId ==> r == Step(s, [NameFolder(folderId, newName)])
  {
    if Some(folderId) == s.defaultFolderId then
      Step(s.(status := Some(RenameRefusal), message := Some(RenameRefusal)), [])
    else Step(s, [NameFolder(folderId, newName)])
  }

  /** `renameSelectedFolder`: rename the selected folder, if any. */
  function RenameSelectedFolder(s: Session, newName: string): (r: Step)
    ensures s.selectedFolder.None? ==> r == Step(s, [])
    ensures s.selectedFolder.Some? ==> r == RenameFolder(s, s.selectedFolder.value.id, newName)
  {
    if s.selectedFolder.Some? then RenameFolder(s, s.selectedFolder.value.id, newName) else Step(s, [])
  }

  /**
    Callback of `renameFolder`. On success the selected folder takes the new
    name if it is the renamed one (and, being republished, has its notes
    fetched again), and the folder list is refreshed.
   */
  function OnFolderRenamed(s: Session, folderId: string, newName: string, success: bool): (r: Step)
    ensures success && s.selectedFolder.Some? && s.selectedFolder.value.id == folderId ==>
      r.session.selectedFolder == Some(WithName(s.selectedFolder.value, newName))
    ensures !(success && s.selectedFolder.Some? && s.selectedFolder.value.id == folderId) ==>
      r.session.selectedFolder == s.selectedFolder
    ensures success ==> r.session.status == Some("Folder renamed successfully")
    ensures !success ==> r == Step(s.(status := Some("Failed to rename folder")), [])
    ensures success && s.currentUserId.Some? ==> QueryFolders(s.currentUserId.value) in r.calls
    ensures r.session.(selectedFolder := s.selectedFolder, status := s.status) == s
    ensures forall c :: c in r.calls ==> !Mutates(c)
  {
    if !success then Step(s.(status := Some("Failed to rename folder")), [])
    else
      var renamed := s.selectedFolder.Some? && s.selectedFolder.value.id == folderId;
      var selected := if renamed then Some(WithName(s.selectedFolder.value, newName)) else s.selectedFolder;
      Step(s.(selectedFolder := selected, status := Some("Folder renamed successfully")),
           (if renamed then Observe(s, selected) else []) + FetchFolders(s))
  }

  /** `deleteFolder`: refused, without any call, for the default folder. */
  function DeleteFolder(s: Session, folderId: string): (r: Step)
    ensures Some(folderId) == s.defaultFolderId ==>
      && r.calls == []
      && r.session.status == Some(DeleteRefusal) && r.session.message == Some(DeleteRefusal)
      && r.session.(status := s.status, message := s.message) == s
    ensures Some(folderId) != s.defaultFolderId ==> r == Step(s, [RemoveFolder(folderId)])
  {
    if Some(folderId) == s.defaultFolderId then
      Step(s.(status := Some(DeleteRefusal), message := Some(DeleteRefusal)), [])
    else Step(s, [RemoveFolder(folderId)])
  }

  /**
    Callback of `deleteFolder`. On success the folder leaves the published list
    and the default folder becomes the selection; its notes are fetched twice,
    once by the selection observer and once directly.
   */
  function OnFolderDeleted(s: Session, folderId: string, success: bool): (r: Step)
    ensures success ==> r.session.selectedFolder == s.defaultFolder
    ensures success ==> r.session.folders.Some? == s.folders.Some?
    ensures success && s.folders.Some? ==>
      && Seqs.IsSubsequence(r.session.folders.value, s.folders.value)
      && (forall f :: f in r.session.folders.value <==> f in s.folders.value && f.id != folderId)
      && forall f :: multiset(r.session.folders.value)[f] == if f.id != folderId then multiset(s.folders.value)[f] else 0
    ensures success ==> r.session.status == Some("Folder deleted successfully")
    ensures success && s.defaultFolder.Some? && s.currentUserId.Some? ==>
      r.calls == [QueryNotes(s.currentUserId.value, s.defaultFolder.value.id),
                  QueryNotes(s.currentUserId.value, s.defaultFolder.value.id)]
    ensures success && s.defaultFolder.None? ==> r.calls == []
    ensures s.currentUserId.None? ==> r.calls == []
    ensures forall c :: c in r.calls ==> !Mutates(c)
    ensures !success ==> r == Step(s.(status := Some("Failed to delete folder")), [])
    ensures r.session.(selectedFolder := s.selectedFolder, folders := s.folders, status := s.status) == s
  {
    if !success then Step(s.(status := Some("Failed to delete folder")), [])
    else
      var keep := (f: Folder) => f.id != folderId;
      var folders := if s.folders.Some? then Some(Seqs.Filter(s.folders.value, keep)) else None;
      assert s.folders.Some? ==> Seqs.IsSubsequence(folders.value, s.folders.value) by {
        if s.folders.Some? {
          Seqs.FilterIsSubsequence(s.folders.value, keep);
        }
      }
      var refresh := if s.defaultFolder.Some? then FetchNotesForFolder(s, s.defaultFolder.value.id).calls else [];
      Step(s.(folders := folders, selectedFolder := s.defaultFolder, status := Some("Folder deleted successfully")),
           Observe(s, s.defaultFolder) + refresh)
  }

  // ---------------------------------------------------------------- notes

  /**
    `addOrUpdateNote`: for a signed-in user, a note without an id is created;
    any other note is updated under its id.
   */
  function AddOrUpdateNote(s: Session, note: Note): (r: Step)
    ensures r.session == s
    ensures s.currentUserId.None? ==> r.calls == []
    ensures s.currentUserId.Some? && IsUnsaved(note) ==> r.calls == [CreateNote(note, s.currentUserId.value)]
    ensures s.currentUserId.Some? && !IsUnsaved(note) ==> r.calls == [EditNote(note.id, note)]
  {
    if s.currentUserId.None? then Step(s, [])
    else if IsUnsaved(note) then Step(s, [CreateNote(note, s.currentUserId.value)])
    else Step(s, [EditNote(note.id, note)])
  }

  /**
    Callback of `addNote` (`created`) or `updateNote`: on success the selected
    folder's notes are fetched again.
   */
  function OnNoteSaved(s: Session, created: bool, success: bool): (r: Step)
    ensures r.session.(status := s.status) == s
    ensures created ==> r.session.status == Some(if success then "Note added successfully" else "Failed to add note")
    ensures !created ==> r.session.status == Some(if success then "Note updated successfully" else "Failed to update note")
    ensures s.currentUserId.None? ==> r.calls == []
    ensures !success ==> r.calls == []
    ensures success && s.selectedFolder.Some? && s.currentUserId.Some? ==>
      r.calls == [QueryNotes(s.currentUserId.value, s.selectedFolder.value.id)]
    ensures s.selectedFolder.None? ==> r.calls == []
  {
    var status :=
      if created then (if success then "Note added successfully" else "Failed to add note")
      else (if success then "Note updated successfully" else "Failed to update note");
    Step(s.(status := Some(status)), if success then Observe(s, s.selectedFolder) else [])
  }

  /** `deleteNote`: ask the store to delete the note (no user check). */
  function DeleteNote(s: Session, noteId: string): (r: Step)
    ensures r == Step(s, [RemoveNote(noteId)])
  {
    Step(s, [RemoveNote(noteId)])
  }

  /** Picking a note in the note list: it becomes the selected note; nothing is fetched. */
  function SelectNote(s: Session, note: Note): (r: Step)
    ensures r.session.selectedNote == Some(note)
    ensures r.session.(selectedNote := s.selectedNote) == s
    ensures r.calls == []
  {
    Step(s.(selectedNote := Some(note)), [])
  }

  /** `deleteSelectedNote`: delete the selected note, if any. */
  function DeleteSelectedNote(s: Session): (r: Step)
    ensures s.selectedNote.None? ==> r == Step(s, [])
    ensures s.selectedNote.Some? ==> r == Step(s, [RemoveNote(s.selectedNote.value.id)])
  {
    if s.selectedNote.Some? then DeleteNote(s, s.selectedNote.value.id) else Step(s, [])
  }

  /**
    Callback of `deleteNote`. On success the note is dropped from the published
    list at once, without waiting for a refetch, and the note selection is
    cleared; on failure the list is left as it was.
   */
  function OnNoteDeleted(s: Session, noteId: string, success: bool): (r: Step)
    ensures r.calls == []
    ensures success ==> r.session.selectedNote.None?
    ensures success ==> r.session.notes.Some? == s.notes.Some?
    ensures success && s.notes.Some? ==>
      && Seqs.IsSubsequence(r.session.notes.value, s.notes.value)
      && (forall n :: n in r.session.notes.value <==> n in s.notes.value && n.id != noteId)
      && forall n :: multiset(r.session.notes.value)[n] == if n.id != noteId then multiset(s.notes.value)[n] else 0
    ensures success ==> r.session.status == Some("Note deleted successfully")
    ensures !success ==> r.session == s.(status := Some("Failed to delete note"))
    ensures r.session.(notes := s.notes, selectedNote := s.selectedNote, status := s.status) == s
  {
    if !success then Step(s.(status := Some("Failed to delete note")), [])
    else
      var keep := (n: Note) => n.id != noteId;
      var notes := if s.notes.Some? then Some(Seqs.Filter(s.notes.value, keep)) else None;
      assert s.notes.Some? ==> Seqs.IsSubsequence(notes.value, s.notes.value) by {
        if s.notes.Some? {
          Seqs.FilterIsSubsequence(s.notes.value, keep);
        }
      }
      Step(s.(notes := notes, selectedNote := None, status := Some("Note deleted successfully")), [])
  }

  /** `deleteAllNotes`: delete the user's notes in the selected folder. */
  function DeleteAllNotes(s: Session): (r: Step)
    ensures r.session == s
    ensures s.selectedFolder.Some? && s.currentUserId.Some? ==>
      r.calls == [ClearFolder(s.currentUserId.value, s.selectedFolder.value.id)]
    ensures s.selectedFolder.None? || s.currentUserId.None? ==> r.calls == []
  {
    if s.selectedFolder.Some? && s.currentUserId.Some? then
      Step(s, [ClearFolder(s.currentUserId.value, s.selectedFolder.value.id)])
    else Step(s, [])
  }

  /**
    Callback of `deleteNotesInFolder`: on success the folder selected at that
    moment is fetched again. If the selection was cleared meanwhile the
    callback dereferences a null selection and stops before publishing
    anything, which is modelled as no change.
   */
  function OnFolderNotesDeleted(s: Session, success: bool): (r: Step)
    ensures !success ==> r == Step(s.(status := Some("Failed to delete notes in folder")), [])
    ensures success && s.selectedFolder.None? ==> r == Step(s, [])
    ensures success && s.selectedFolder.Some? ==>
      && r.session == s.(status := Some("All notes in the folder deleted successfully"))
      && r.calls == FetchNotesForFolder(s, s.selectedFolder.value.id).calls
  {
    if !success then Step(s.(status := Some("Failed to delete notes in folder")), [])
    else if s.selectedFolder.None? then Step(s, [])
    else Step(s.(status := Some("All notes in the folder deleted successfully")),
              FetchNotesForFolder(s, s.selectedFolder.value.id).calls)
  }

  /**
    Once the default folder is known it is protected: renaming or deleting it
    issues no call, and the rest of the session is unchanged.
   */
  lemma {:induction false} DefaultFolderIsProtected(s: Session, folderId: string, newName: string)
    ensures var known := OnDefaultFolder(s, true, folderId).session;
      && RenameFolder(known, folderId, newName).calls == []
      && DeleteFolder(known, folderId).calls == []
      && RenameFolder(known, folderId, newName).session.selectedFolder == known.selectedFolder
      && DeleteFolder(known, folderId).session.folders == known.folders
  {
  }
}
