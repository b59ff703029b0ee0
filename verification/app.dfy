/**
  The view model and the data helper together.

  A `World` holds the remote store, the session and the calls the session has
  issued but whose callbacks have not run yet. A view-model transition only
  adds calls (`Apply`). Serving a pending call (`Serve`) runs the data helper's
  transition on the store with the outcomes the database reports (`Env`) and
  then the session's callback for that call. Calls may be served in any order,
  which represents the asynchrony between the view model's calls. A helper
  method that makes several remote requests is served as one atomic step:
  nothing interleaves with `ensureDefaultFolder`'s lookup and create, or with
  `deleteFolder`'s note query, batch and folder delete.
 */
module App {
  import opened Options
  import opened Models
  import Store
  import Session
  import Forms

  datatype World = World(store: Store.Store, session: Session.Session, pending: seq<Session.Call>)

  /** What the database reports while serving one call. */
  datatype Env = Env(queryOk: bool, commitOk: bool, writeOk: bool, newId: string, now: Timestamp)

  /** A successful write is handed an id no document uses. */
  predicate Admissible(st: Store.Store, env: Env)
  {
    env.writeOk ==> Store.FreshId(env.newId, st.notes.Keys) && Store.FreshId(env.newId, st.folders.Keys)
  }

  /** Run a view-model transition: its calls join the pending ones. */
  function Apply(w: World, step: Session.Step): World
  {
    World(w.store, step.session, w.pending + step.calls)
  }

  /** The pending calls once the `i`-th has been taken out. */
  function Without(pending: seq<Session.Call>, i: nat): (r: seq<Session.Call>)
    requires i < |pending|
    ensures |r| == |pending| - 1
    ensures forall k :: 0 <= k < i ==> r[k] == pending[k]
    ensures forall k :: i <= k < |r| ==> r[k] == pending[k + 1]
  {
    pending[..i] + pending[i + 1..]
  }

  /** The world after a callback: the store as the call left it, the callback's calls queued. */
  function Resume(st: Store.Store, others: seq<Session.Call>, step: Session.Step): (r: World)
    ensures r.store == st && r.session == step.session
    ensures |r.pending| >= |others| && r.pending[..|others|] == others
  {
    assert (others + step.calls)[..|others|] == others;
    World(st, step.session, others + step.calls)
  }

  /**
    The store's side of a call: the data helper's transition with the outcomes
    `env` reports. Queries leave the store as it is and report whether they ran.
   */
  function Perform(st: Store.Store, call: Session.Call, env: Env): (r: Store.Creation)
    requires Admissible(st, env)
    ensures !Session.Mutates(call) ==> r.store == st
    ensures forall k :: k in st.folders && !call.RemoveFolder? ==> k in r.store.folders
  {
    match call
    case LookUpDefault(u) => Store.EnsureDefaultFolder(st, u, env.queryOk, env.writeOk, env.newId, env.now)
    case QueryFolders(_) => Store.Creation(st, env.queryOk, "")
    case QueryNotes(_, _) => Store.Creation(st, env.queryOk, "")
    case CreateFolder(folder, u) => Store.AddFolder(st, folder, u, env.writeOk, env.newId, env.now)
    case CreateNote(note, u) =>
      var c := Store.AddNote(st, note, u, env.writeOk, env.newId, env.now);
      Store.Creation(c.store, c.success, "")
    case EditNote(id, note) =>
      var c := Store.UpdateNote(st, id, note, env.writeOk, env.now);
      Store.Creation(c.store, c.success, "")
    case RemoveNote(id) =>
      var c := Store.DeleteNote(st, id, env.writeOk);
      Store.Creation(c.store, c.success, "")
    case NameFolder(id, name) =>
      var c := Store.RenameFolder(st, id, name, env.writeOk);
      Store.Creation(c.store, c.success, "")
    case RemoveFolder(id) =>
      var c := Store.DeleteFolder(st, id, env.queryOk, env.commitOk, env.writeOk);
      Store.Creation(c.store, c.success, "")
    case ClearFolder(u, f) =>
      var c := Store.DeleteNotesInFolder(st, u, f, env.queryOk, env.commitOk);
      Store.Creation(c.store, c.success, "")
    case SignOut => Store.Creation(st, true, "")
  }

  /**
    The session's side of a call: the view model's callback, given the store
    the call found (`st`, which query answers are read from) and the outcome `c`.
   */
  function Callback(s: Session.Session, st: Store.Store, call: Session.Call, env: Env, c: Store.Creation): Session.Step
  {
    match call
    case LookUpDefault(_) => Session.OnDefaultFolder(s, c.success, c.id)
    case QueryFolders(u) => Session.Step(Session.OnFoldersFetched(s, Store.GetFolders(st, u, env.queryOk)), [])
    case QueryNotes(u, f) => Session.Step(Session.OnNotesFetched(s, Store.GetNotesForFolder(st, u, f, env.queryOk)), [])
    case CreateFolder(folder, u) => Session.OnFolderAdded(s, folder, u, c.success, c.id)
    case CreateNote(_, _) => Session.OnNoteSaved(s, true, c.success)
    case EditNote(_, _) => Session.OnNoteSaved(s, false, c.success)
    case RemoveNote(id) => Session.OnNoteDeleted(s, id, c.success)
    case NameFolder(id, name) => Session.OnFolderRenamed(s, id, name, c.success)
    case RemoveFolder(id) => Session.OnFolderDeleted(s, id, c.success)
    case ClearFolder(_, _) => Session.OnFolderNotesDeleted(s, c.success)
    case SignOut => Session.Step(s, [])
  }

  /** The `i`-th pending call completes: the store answers, then the session's callback runs. */
  function Serve(w: World, i: nat, env: Env): (r: World)
    requires i < |w.pending|
    requires Admissible(w.store, env)
    ensures |r.pending| >= |w.pending| - 1
    ensures r.pending[..|w.pending| - 1] == Without(w.pending, i)
    ensures !Session.Mutates(w.pending[i]) ==> r.store == w.store
    ensures forall k :: k in w.store.folders && !w.pending[i].RemoveFolder? ==> k in r.store.folders
  {
    var c := Perform(w.store, w.pending[i], env);
    Resume(c.store, Without(w.pending, i), Callback(w.session, w.store, w.pending[i], env, c))
  }

  /** What the user (or the authentication provider) asks of the view model. */
  datatype Intent =
    | AuthUser(uid: string)                       // listenToAuthState
    | Logout                                      // handleUserLogout
    | SelectFolder(folder: Folder)                // the selected-folder observer
    | AddFolder(folder: Folder)
    | FetchNotes(folderId: string)                // fetchNotesForFolder
    | SaveNote(note: Note)                        // addOrUpdateNote
    | SelectNote(note: Note)                      // the note list's click handler
    | DeleteNote(noteId: string)
    | DeleteSelectedNote
    | RenameFolder(folderId: string, newName: string)
    | RenameSelectedFolder(newName: string)
    | DeleteFolder(folderId: string)
    | DeleteAllNotes

  function Handle(s: Session.Session, intent: Intent): Session.Step
  {
    match intent
    case AuthUser(uid) => Session.OnAuthUser(s, uid)
    case Logout => Session.HandleUserLogout(s)
    case SelectFolder(f) => Session.SelectFolder(s, f)
    case AddFolder(f) => Session.AddFolder(s, f)
    case FetchNotes(id) => Session.FetchNotesForFolder(s, id)
    case SaveNote(n) => Session.AddOrUpdateNote(s, n)
    case SelectNote(n) => Session.SelectNote(s, n)
    case DeleteNote(id) => Session.DeleteNote(s, id)
    case DeleteSelectedNote => Session.DeleteSelectedNote(s)
    case RenameFolder(id, name) => Session.RenameFolder(s, id, name)
    case RenameSelectedFolder(name) => Session.RenameSelectedFolder(s, name)
    case DeleteFolder(id) => Session.DeleteFolder(s, id)
    case DeleteAllNotes => Session.DeleteAllNotes(s)
  }

  /** A user action: the view model's transition runs and its calls are queued. */
  function Act(w: World, intent: Intent): (r: World)
    ensures r.store == w.store
    ensures |r.pending| >= |w.pending| && r.pending[..|w.pending|] == w.pending
  {
    var step := Handle(w.session, intent);
    assert (w.pending + step.calls)[..|w.pending|] == w.pending;
    Apply(w, step)
  }

  /**
    What holds in every reachable world: each stored folder keeps its creator's
    full-access grant, and the published folder list never shows a "Default" folder.
   */
  predicate Invariant(w: World)
  {
    Store.FoldersGranted(w.store) && Session.DefaultNotListed(w.session)
  }

  lemma {:induction false} StartSatisfiesInvariant()
    ensures Invariant(World(Store.Empty, Session.Initial, []))
  {
  }

  lemma {:induction false} ActPreservesInvariant(w: World, intent: Intent)
    requires Invariant(w)
    ensures Invariant(Act(w, intent))
  {
  }

  /** A store step that keeps every surviving folder unchanged, drops no grant and grants each new folder. */
  lemma {:induction false} GrantsCarryOver(s: Store.Store, t: Store.Store)
    requires Store.FoldersGranted(s)
    requires s.grants <= t.grants
    requires forall k :: k in t.folders && k !in s.folders ==>
      Store.Grant(Store.FoldersCollection, k, t.folders[k].createdBy, FullAccess) in t.grants
    requires forall k :: k in t.folders && k in s.folders ==> t.folders[k] == s.folders[k]
    ensures Store.FoldersGranted(t)
  {
    forall k | k in t.folders
      ensures Store.Grant(Store.FoldersCollection, k, t.folders[k].createdBy, FullAccess) in t.grants
    {
      if k in s.folders {
        assert Store.Grant(Store.FoldersCollection, k, s.folders[k].createdBy, FullAccess) in s.grants;
      }
    }
  }

  /** The store's side of every call keeps each stored folder's grant. */
  lemma {:induction false} PerformKeepsGrants(st: Store.Store, call: Session.Call, env: Env)
    requires Admissible(st, env)
    requires Store.FoldersGranted(st)
    ensures Store.FoldersGranted(Perform(st, call, env).store)
  {
    match call
    case LookUpDefault(u) =>
      if env.queryOk && !Store.HasDefault(st, u) && env.writeOk {
        GrantsCarryOver(st, Perform(st, call, env).store);
      }
    case CreateFolder(_, _) =>
      GrantsCarryOver(st, Perform(st, call, env).store);
    case RemoveFolder(_) =>
      GrantsCarryOver(st, Perform(st, call, env).store);
    case _ =>
  }

  lemma {:induction false} ServePreservesInvariant(w: World, i: nat, env: Env)
    requires i < |w.pending|
    requires Admissible(w.store, env)
    requires Invariant(w)
    ensures Invariant(Serve(w, i, env))
  {
    PerformKeepsGrants(w.store, w.pending[i], env);
  }

  /**
    A refused rename or delete of the default folder never reaches the store:
    no call is issued, so nothing can change it, and only the message values
    of the session change.
   */
  lemma {:induction false} DefaultFolderGuard(w: World, newName: string)
    requires w.session.defaultFolderId.Some?
    ensures var id := w.session.defaultFolderId.value;
      && Apply(w, Session.RenameFolder(w.session, id, newName)).pending == w.pending
      && Apply(w, Session.DeleteFolder(w.session, id)).pending == w.pending
      && Apply(w, Session.RenameFolder(w.session, id, newName)).session.(status := w.session.status, message := w.session.message) == w.session
      && Apply(w, Session.DeleteFolder(w.session, id)).session.(status := w.session.status, message := w.session.message) == w.session
  {
    var id := w.session.defaultFolderId.value;
    assert w.pending + [] == w.pending;
  }

  /**
    Renaming the selected folder: once the rename call succeeds the selection
    shows the new name, the store holds it, and neither the published notes
    nor the stored notes change.
   */
  lemma {:induction false} RenameSelectedFolderScenario(w: World, newName: string, env: Env)
    requires w.pending == []
    requires w.session.selectedFolder.Some?
    requires var f := w.session.selectedFolder.value;
      f.id in w.store.folders && Some(f.id) != w.session.defaultFolderId
    requires env.writeOk && Admissible(w.store, env)
    ensures var f := w.session.selectedFolder.value;
      var asked := Apply(w, Session.RenameSelectedFolder(w.session, newName));
      |asked.pending| == 1
      && var done := Serve(asked, 0, env);
      && done.session.selectedFolder == Some(WithName(f, newName))
      && done.session.notes == w.session.notes
      && done.store.notes == w.store.notes
      && done.store.folders[f.id].name == newName
  {
    var f := w.session.selectedFolder.value;
    var asked := Apply(w, Session.RenameSelectedFolder(w.session, newName));
    assert asked.pending == [Session.NameFolder(f.id, newName)];
  }

  /**
    No fencing: a note query for folder `a` that completes after the user has
    moved to folder `b` still publishes `a`'s notes while `b` stays selected.
   */
  lemma {:induction false} StaleNoteFetchIsPublished(w: World, userId: string, a: string, b: Folder, env: Env, env': Env)
    requires w.pending == [Session.QueryNotes(userId, a)]
    requires w.session.currentUserId.Some?
    requires Admissible(w.store, env) && Admissible(w.store, env')
    ensures var moved := Apply(w, Session.SelectFolder(w.session, b));
      |moved.pending| == 2
      && var newer := Serve(moved, 1, env);
      && |newer.pending| == 1
      && var late := Serve(newer, 0, env');
      && late.session.selectedFolder == Some(b)
      && late.session.notes == Store.GetNotesForFolder(w.store, userId, a, env'.queryOk)
  {
    var moved := Apply(w, Session.SelectFolder(w.session, b));
    assert moved.pending == [Session.QueryNotes(userId, a), Session.QueryNotes(w.session.currentUserId.value, b.id)];
    var newer := Serve(moved, 1, env);
    assert newer.pending == [Session.QueryNotes(userId, a)];
  }

  /**
    Serving a folder deletion. When both phases succeed the folder's notes and
    the folder are gone from the store, the published list no longer shows it
    and the default folder is selected. When the note phase fails nothing in
    the store changes.
   */
  lemma {:induction false} FolderDeletionCascade(w: World, i: nat, env: Env)
    requires i < |w.pending| && w.pending[i].RemoveFolder?
    requires Admissible(w.store, env)
    ensures var id := w.pending[i].folderId;
      var done := Serve(w, i, env);
      && (env.queryOk && env.commitOk && env.writeOk ==>
          && (forall k :: k in done.store.notes ==> done.store.notes[k].folderId != id)
          && id !in done.store.folders
          && done.session.selectedFolder == w.session.defaultFolder
          && (done.session.folders.Some? ==> forall f :: f in done.session.folders.value ==> f.id != id))
      && (!(env.queryOk && env.commitOk) ==>
          done.store == w.store && done.session.status == Some("Failed to delete folder"))
  {
  }

  /**
    First sign-in against an empty store: serving the default-folder lookup
    creates the "Default" folder, records its id and selects it. Signing out
    and in again and serving the new lookup succeeds with the same folder,
    whether or not a write would have succeeded, and creates nothing.
   */
  lemma {:induction false} DefaultFolderBootstrap(userId: string, env: Env, env': Env)
    requires userId != Session.SignedOutUid
    requires env.queryOk && env.writeOk && env.newId != ""
    requires env'.queryOk
    requires env'.writeOk ==> env'.newId != "" && env'.newId != env.newId
    ensures var start := World(Store.Empty, Session.Initial, []);
      var signedIn := Apply(start, Session.OnAuthUser(start.session, userId));
      |signedIn.pending| >= 1 && signedIn.pending[0] == Session.LookUpDefault(userId)
      && var boot := Serve(signedIn, 0, env);
      && boot.session.defaultFolderId == Some(env.newId)
      && boot.session.selectedFolder == Some(Folder(id := env.newId, name := DefaultFolderName))
      && env.newId in boot.store.folders && Store.IsDefaultOf(boot.store.folders[env.newId], userId)
      && var out := Apply(boot, Session.HandleUserLogout(boot.session));
      && var back := Apply(out, Session.OnAuthUser(out.session, userId));
      && |back.pending| > |out.pending| && back.pending[|out.pending|] == Session.LookUpDefault(userId)
      && var again := Serve(back, |out.pending|, env');
      && Store.EnsureDefaultFolder(boot.store, userId, true, env'.writeOk, env'.newId, env'.now) == Store.Creation(boot.store, true, env.newId)
      && again.session.defaultFolderId == Some(env.newId)
      && again.session.selectedFolder == Some(Folder(id := env.newId, name := DefaultFolderName))
      && again.store == boot.store
  {
    var start := World(Store.Empty, Session.Initial, []);
    var signedIn := Apply(start, Session.OnAuthUser(start.session, userId));
    var boot := Serve(signedIn, 0, env);
    var created := Store.EnsureDefaultFolder(Store.Empty, userId, true, true, env.newId, env.now);
    assert boot.store == created.store;
    var out := Apply(boot, Session.HandleUserLogout(boot.session));
    var back := Apply(out, Session.OnAuthUser(out.session, userId));
    assert Session.Reinitialises(out.session, userId);
    assert back.pending[|out.pending|] == Session.OnAuthUser(out.session, userId).calls[0];
    Store.EnsureDefaultIdempotent(Store.Empty, userId, true, env.newId, env.now, env'.writeOk, env'.newId, env'.now);
  }

  /** Serving a note query publishes what the store lists at that moment, and changes nothing else. */
  lemma {:induction false} ServedQueryPublishesListing(w: World, i: nat, env: Env)
    requires i < |w.pending| && w.pending[i].QueryNotes?
    requires Admissible(w.store, env)
    ensures var q := w.pending[i];
      var r := Serve(w, i, env);
      && r.session == w.session.(notes := Store.GetNotesForFolder(w.store, q.userId, q.folderId, env.queryOk))
      && r.store == w.store
      && r.pending == Without(w.pending, i)
  {
    assert Without(w.pending, i) + [] == Without(w.pending, i);
  }

  /**
    Deleting the note the user picked: once the delete call succeeds the note
    is gone from the store and from the published list, the note selection is
    cleared and no further call is queued.
   */
  lemma {:induction false} DeleteSelectedNoteScenario(w: World, note: Note, env: Env)
    requires env.writeOk && Admissible(w.store, env)
    ensures var asked := Act(Act(w, SelectNote(note)), DeleteSelectedNote);
      asked.pending == w.pending + [Session.RemoveNote(note.id)]
      && var done := Serve(asked, |w.pending|, env);
      && note.id !in done.store.notes
      && done.session.selectedNote.None?
      && done.session.notes.Some? == w.session.notes.Some?
      && (done.session.notes.Some? ==> forall n :: n in done.session.notes.value ==> n.id != note.id)
      && done.pending == w.pending
  {
    var picked := Act(w, SelectNote(note));
    assert picked.pending == w.pending;
    var asked := Act(picked, DeleteSelectedNote);
    assert asked.pending == w.pending + [Session.RemoveNote(note.id)];
    assert Without(asked.pending, |w.pending|) == w.pending;
  }

  /**
    Deleting all notes of the selected folder: once the batch succeeds the
    callback queues a refetch of that folder, and serving it publishes an
    empty list. The session's notes are not touched before the refetch.
   */
  lemma {:induction false} DeleteAllNotesScenario(w: World, env: Env, env': Env)
    requires w.session.selectedFolder.Some? && w.session.currentUserId.Some?
    requires env.queryOk && env.commitOk && Admissible(w.store, env)
    requires env'.queryOk
    ensures var u, f := w.session.currentUserId.value, w.session.selectedFolder.value.id;
      var asked := Act(w, DeleteAllNotes);
      asked.pending == w.pending + [Session.ClearFolder(u, f)]
      && var cleared := Serve(asked, |w.pending|, env);
      && cleared.pending == w.pending + [Session.QueryNotes(u, f)]
      && cleared.session.notes == w.session.notes
      && cleared.session.status == Some("All notes in the folder deleted successfully")
      && (Admissible(cleared.store, env') ==> Serve(cleared, |w.pending|, env').session.notes == Some([]))
  {
    var u, f := w.session.currentUserId.value, w.session.selectedFolder.value.id;
    var asked := Act(w, DeleteAllNotes);
    assert asked.pending == w.pending + [Session.ClearFolder(u, f)];
    assert Without(asked.pending, |w.pending|) == w.pending;
    var cleared := Serve(asked, |w.pending|, env);
    assert cleared.pending == w.pending + [Session.QueryNotes(u, f)];
    Store.ClearedFolderListsEmpty(w.store, u, f);
    if Admissible(cleared.store, env') {
      ServedQueryPublishesListing(cleared, |w.pending|, env');
    }
  }

  /**
    Adding a folder: once the create call succeeds the store holds a folder
    with the submitted name, owned by the user, under the fresh id. The
    selection becomes the submitted folder with its owner set; it keeps the
    submitted id, not the stored one. The folder list and the selection's notes
    are fetched next.
   */
  lemma {:induction false} AddFolderScenario(w: World, folder: Folder, env: Env)
    requires w.session.currentUserId.Some?
    requires env.writeOk && Admissible(w.store, env)
    ensures var u := w.session.currentUserId.value;
      var asked := Act(w, AddFolder(folder));
      asked.pending == w.pending + [Session.CreateFolder(folder, u)]
      && var done := Serve(asked, |w.pending|, env);
      && env.newId in done.store.folders
      && done.store.folders[env.newId].name == folder.name
      && done.store.folders[env.newId].createdBy == u
      && done.session.selectedFolder == Some(folder.(createdBy := u))
      && done.session.status == Some("Folder added successfully")
      && done.pending == w.pending + [Session.QueryFolders(u), Session.QueryNotes(u, folder.id)]
  {
    var u := w.session.currentUserId.value;
    var asked := Act(w, AddFolder(folder));
    assert asked.pending == w.pending + [Session.CreateFolder(folder, u)];
    assert Without(asked.pending, |w.pending|) == w.pending;
  }

  /**
    Saving a new note from the editor: the trimmed title and content are
    stored under the fresh id, owned by the user, in the selected folder; the
    callback refetches that folder, and serving the refetch publishes a list
    that shows the note with the trimmed text.
   */
  lemma {:induction false} SaveNoteScenario(w: World, rawTitle: string, rawContent: string, env: Env, env': Env)
    requires w.session.currentUserId.Some? && w.session.selectedFolder.Some?
    requires w.session.selectedNote.None?
    requires !Forms.AllWhitespace(rawTitle) && !Forms.AllWhitespace(rawContent)
    requires env.writeOk && Admissible(w.store, env)
    requires env'.queryOk
    ensures var u, f := w.session.currentUserId.value, w.session.selectedFolder.value.id;
      var asked := Apply(w, Forms.SaveNote(w.session, rawTitle, rawContent));
      |asked.pending| == |w.pending| + 1 && asked.pending[|w.pending|].CreateNote?
      && var saved := Serve(asked, |w.pending|, env);
      && saved.pending == w.pending + [Session.QueryNotes(u, f)]
      && saved.session.status == Some("Note added successfully")
      && (Admissible(saved.store, env') ==>
            var shown := Serve(saved, |w.pending|, env').session.notes;
            && shown.Some?
            && exists i :: 0 <= i < |shown.value| && shown.value[i].id == env.newId
                 && shown.value[i].title == Forms.Trim(rawTitle) && shown.value[i].content == Forms.Trim(rawContent))
  {
    var u, f := w.session.currentUserId.value, w.session.selectedFolder.value.id;
    var step := Forms.SaveNote(w.session, rawTitle, rawContent);
    var note := step.calls[0].note;
    assert step.calls == [Session.CreateNote(note, u)];
    var asked := Apply(w, step);
    assert asked.pending == w.pending + [Session.CreateNote(note, u)];
    assert Without(asked.pending, |w.pending|) == w.pending;
    var saved := Serve(asked, |w.pending|, env);
    assert saved.pending == w.pending + [Session.QueryNotes(u, f)];
    Store.AddedNoteIsListed(w.store, note, u, env.newId, env.now);
    if Admissible(saved.store, env') {
      ServedQueryPublishesListing(saved, |w.pending|, env');
    }
  }

  /** Serving a successful update of a stored note: the store takes the update, the status reports it, the selection is refetched. */
  lemma {:induction false} ServedEditUpdatesNote(w: World, i: nat, env: Env)
    requires i < |w.pending| && w.pending[i].EditNote? && w.pending[i].noteId in w.store.notes
    requires env.writeOk && Admissible(w.store, env)
    ensures var q := w.pending[i];
      var r := Serve(w, i, env);
      && r.store == Store.UpdateNote(w.store, q.noteId, q.note, true, env.now).store
      && r.session == w.session.(status := Some("Note updated successfully"))
      && r.pending == Without(w.pending, i) + Session.Observe(w.session, w.session.selectedFolder)
  {
  }

  /**
    Saving the editor over a stored note: the update is addressed to the
    selected note's id and stores the trimmed title and content. The callback
    refetches the selected folder, and when the note is the user's and filed
    there, serving the refetch shows the new text under the same id.
   */
  lemma {:induction false} EditNoteScenario(w: World, rawTitle: string, rawContent: string, env: Env, env': Env)
    requires w.session.currentUserId.Some? && w.session.selectedFolder.Some?
    requires w.session.selectedNote.Some? && w.session.selectedNote.value.id != ""
    requires w.session.selectedNote.value.id in w.store.notes
    requires !Forms.AllWhitespace(rawTitle) && !Forms.AllWhitespace(rawContent)
    requires env.writeOk && Admissible(w.store, env)
    requires env'.queryOk
    ensures var u, f, id := w.session.currentUserId.value, w.session.selectedFolder.value.id, w.session.selectedNote.value.id;
      var asked := Apply(w, Forms.SaveNote(w.session, rawTitle, rawContent));
      |asked.pending| == |w.pending| + 1 && asked.pending[|w.pending|].EditNote?
      && asked.pending[|w.pending|].noteId == id
      && var saved := Serve(asked, |w.pending|, env);
      && saved.store.notes.Keys == w.store.notes.Keys
      && saved.store.notes[id].title == Forms.Trim(rawTitle) && saved.store.notes[id].content == Forms.Trim(rawContent)
      && saved.pending == w.pending + [Session.QueryNotes(u, f)]
      && saved.session.status == Some("Note updated successfully")
      && (w.store.notes[id].createdBy == u && w.store.notes[id].folderId == f && Admissible(saved.store, env') ==>
            var shown := Serve(saved, |w.pending|, env').session.notes;
            && shown.Some?
            && exists i :: 0 <= i < |shown.value| && shown.value[i].id == id
                 && shown.value[i].title == Forms.Trim(rawTitle) && shown.value[i].content == Forms.Trim(rawContent))
  {
    var u, f, id := w.session.currentUserId.value, w.session.selectedFolder.value.id, w.session.selectedNote.value.id;
    var step := Forms.SaveNote(w.session, rawTitle, rawContent);
    var note := step.calls[0].note;
    assert step.calls == [Session.EditNote(id, note)];
    var asked := Apply(w, step);
    assert asked.pending == w.pending + [Session.EditNote(id, note)];
    assert Without(asked.pending, |w.pending|) == w.pending;
    var saved := Serve(asked, |w.pending|, env);
    ServedEditUpdatesNote(asked, |w.pending|, env);
    assert saved.pending == w.pending + [Session.QueryNotes(u, f)];
    Store.UpdatedNoteIsListed(w.store, id, note, env.now);
    if Admissible(saved.store, env') {
      ServedQueryPublishesListing(saved, |w.pending|, env');
    }
  }
}
