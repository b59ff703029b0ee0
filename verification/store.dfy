/**
  The document store as the data helper sees it
  (SimpleNote/.../data/ViewModelDBHelper.kt).

  The remote database becomes a value: a map of folder documents and a map of
  note documents, both keyed by document id, plus the permission documents
  written beside them. Each helper method becomes a pure transition taking the
  outcomes the database would report through its success and failure callbacks
  as parameters: `ok` flags for each remote call, the id the database assigns
  to a created document, and the server time. A batch whose commit fails
  leaves the store unchanged.
 */
module Store {
  import opened Options
  import opened Models
  import Order
  import Seqs

  datatype Collection = NotesCollection | FoldersCollection

  /** A permission document written under a note or folder for one user. */
  datatype Grant = Grant(collection: Collection, resourceId: string, userId: string, permission: Permission)

  datatype Store = Store(folders: map<string, Folder>, notes: map<string, Note>, grants: set<Grant>)

  const Empty: Store := Store(map[], map[], {})

  /** A write's completion: the store afterwards and the flag handed to the callback. */
  datatype Completion = Completion(store: Store, success: bool)

  /** A create's completion: also the new document's id, or "" on failure. */
  datatype Creation = Creation(store: Store, success: bool, id: string)

  /** The database hands out non-empty ids that are not in use. */
  predicate FreshId(id: string, ids: set<string>)
  {
    id != "" && id !in ids
  }

  /** A server-timestamp field: filled with the server time only when left empty. */
  function Stamp(t: Option<Timestamp>, now: Timestamp): (r: Option<Timestamp>)
    ensures r.Some?
    ensures t.Some? ==> r == t
  {
    if t.Some? then t else Some(now)
  }

  /** The folder object after `addFolder` has claimed it for `userId`. */
  function Owned(folder: Folder, userId: string): (f: Folder)
    ensures f.createdBy == userId
    ensures f.(createdBy := folder.createdBy) == folder
  {
    folder.(createdBy := userId)
  }

  /** A note as a query returns it: `id` (and the document-id field) set to its document id. */
  function ReadNote(id: string, n: Note): Note
  {
    n.(id := id, firestoreId := id)
  }

  /** A folder as a query returns it: `id` filled from its document id. */
  function ReadFolder(id: string, f: Folder): Folder
  {
    f.(id := id)
  }

  /** The ids of `userId`'s notes in `folderId`, ascending. */
  function SelectNotes(m: map<string, Note>, userId: string, folderId: string): (r: seq<string>)
    ensures Order.Ascending(r)
    ensures forall k :: k in r <==> k in m && m[k].createdBy == userId && m[k].folderId == folderId
  {
    Matching(m, (n: Note) => n.createdBy == userId && n.folderId == folderId)
  }

  /** The ids of `userId`'s folders, ascending. */
  function SelectFolders(m: map<string, Folder>, userId: string): (r: seq<string>)
    ensures Order.Ascending(r)
    ensures forall k :: k in r <==> k in m && m[k].createdBy == userId
  {
    Matching(m, (f: Folder) => f.createdBy == userId)
  }

  /** The note documents with the given ids, each as a query returns it. */
  function ReadNotes(m: map<string, Note>, ids: seq<string>): (r: seq<Note>)
    requires forall k :: k in ids ==> k in m
    ensures |r| == |ids|
    ensures forall i :: 0 <= i < |ids| ==> r[i].id == ids[i] && r[i] == ReadNote(ids[i], m[ids[i]])
  {
    if |ids| == 0 then [] else [ReadNote(ids[0], m[ids[0]])] + ReadNotes(m, ids[1..])
  }

  /** The folder documents with the given ids, each as a query returns it. */
  function ReadFolders(m: map<string, Folder>, ids: seq<string>): (r: seq<Folder>)
    requires forall k :: k in ids ==> k in m
    ensures |r| == |ids|
    ensures forall i :: 0 <= i < |ids| ==> r[i].id == ids[i] && r[i] == ReadFolder(ids[i], m[ids[i]])
  {
    if |ids| == 0 then [] else [ReadFolder(ids[0], m[ids[0]])] + ReadFolders(m, ids[1..])
  }

  predicate IsDefaultOf(f: Folder, userId: string)
  {
    f.createdBy == userId && f.name == DefaultFolderName
  }

  /** The ids of the documents a query selects, in ascending id order. */
  function Matching<T>(m: map<string, T>, keep: T -> bool): (r: seq<string>)
    ensures Order.Ascending(r)
    ensures forall k :: k in r <==> k in m && keep(m[k])
  {
    var all := Order.SortedKeys(m.Keys);
    var selected := (k: string) => k in m && keep(m[k]);
    Seqs.FilterKeepsAscending(all, selected);
    Seqs.Filter(all, selected)
  }

  /** The documents that remain after a batch deletes every document `doomed` selects. */
  function Purge(m: map<string, Note>, doomed: Note -> bool): (r: map<string, Note>)
    ensures forall k :: k in r <==> k in m && !doomed(m[k])
    ensures forall k :: k in r ==> r[k] == m[k]
  {
    map k | k in m && !doomed(m[k]) :: m[k]
  }

  // ---------------------------------------------------------------- notes

  /** `addNote`: store the note under a new id, write its id field, grant the user full access. */
  function AddNote(s: Store, note: Note, userId: string, ok: bool, newId: string, now: Timestamp): (r: Completion)
    requires ok ==> FreshId(newId, s.notes.Keys)
    ensures r.success == ok
    ensures !ok ==> r.store == s
    ensures r.store.folders == s.folders
    ensures ok ==> r.store.notes.Keys == s.notes.Keys + {newId}
    ensures ok ==> forall k :: k in s.notes ==> r.store.notes[k] == s.notes[k]
    ensures ok ==> var n := r.store.notes[newId];
      && n.id == newId && n.folderId == note.folderId && n.createdBy == note.createdBy
      && n.title == note.title && n.content == note.content
      && n.createdTimestamp.Some? && n.updatedAt.Some?
    ensures ok ==> r.store.grants == s.grants + {Grant(NotesCollection, newId, userId, FullAccess)}
  {
    if !ok then Completion(s, false)
    else
      var stored := note.(id := newId, firestoreId := "", createdTimestamp := Stamp(note.createdTimestamp, now), updatedAt := Stamp(note.updatedAt, now));
      Completion(s.(notes := s.notes[newId := stored],
                    grants := s.grants + {Grant(NotesCollection, newId, userId, FullAccess)}), true)
  }

  /** The ids of a listing, in listing order. */
  function NoteIds(l: seq<Note>): (r: seq<string>)
    ensures |r| == |l|
    ensures forall i :: 0 <= i < |l| ==> r[i] == l[i].id
  {
    if |l| == 0 then [] else [l[0].id] + NoteIds(l[1..])
  }

  /** The ids of a folder listing, in listing order. */
  function FolderIds(l: seq<Folder>): (r: seq<string>)
    ensures |r| == |l|
    ensures forall i :: 0 <= i < |l| ==> r[i] == l[i].id
  {
    if |l| == 0 then [] else [l[0].id] + FolderIds(l[1..])
  }

  /**
    `l` is what a query for `userId`'s notes in `folderId` returns: the selected
    documents in ascending id order, each read back with its document id.
   */
  predicate NoteListing(s: Store, userId: string, folderId: string, l: seq<Note>)
  {
    && NoteIds(l) == SelectNotes(s.notes, userId, folderId)
    && forall i :: 0 <= i < |l| ==> l[i].id in s.notes && l[i] == ReadNote(l[i].id, s.notes[l[i].id])
  }

  /** `l` is what a query for `userId`'s folders returns: the selected documents by ascending id, read back. */
  predicate FolderListing(s: Store, userId: string, l: seq<Folder>)
  {
    && FolderIds(l) == SelectFolders(s.folders, userId)
    && forall i :: 0 <= i < |l| ==> l[i].id in s.folders && l[i] == ReadFolder(l[i].id, s.folders[l[i].id])
  }

  /** Reading documents back keeps their ids in order. */
  lemma {:induction false} ReadNotesKeepIds(m: map<string, Note>, ids: seq<string>)
    requires forall k :: k in ids ==> k in m
    ensures NoteIds(ReadNotes(m, ids)) == ids
  {
    var l := ReadNotes(m, ids);
    assert forall i :: 0 <= i < |ids| ==> NoteIds(l)[i] == l[i].id == ids[i];
  }

  /** Reading folder documents back keeps their ids in order. */
  lemma {:induction false} ReadFoldersKeepIds(m: map<string, Folder>, ids: seq<string>)
    requires forall k :: k in ids ==> k in m
    ensures FolderIds(ReadFolders(m, ids)) == ids
  {
    var l := ReadFolders(m, ids);
    assert forall i :: 0 <= i < |ids| ==> FolderIds(l)[i] == l[i].id == ids[i];
  }

  /** Reading back the selected notes yields exactly their listing. */
  lemma {:induction false} SelectedNotesAreListing(s: Store, userId: string, folderId: string)
    ensures NoteListing(s, userId, folderId, ReadNotes(s.notes, SelectNotes(s.notes, userId, folderId)))
  {
    ReadNotesKeepIds(s.notes, SelectNotes(s.notes, userId, folderId));
  }

  /** Reading back the selected folders yields exactly their listing. */
  lemma {:induction false} SelectedFoldersAreListing(s: Store, userId: string)
    ensures FolderListing(s, userId, ReadFolders(s.folders, SelectFolders(s.folders, userId)))
  {
    ReadFoldersKeepIds(s.folders, SelectFolders(s.folders, userId));
  }

  /** A note listing is ordered by strictly ascending document id. */
  lemma {:induction false} NoteListingAscends(s: Store, userId: string, folderId: string, l: seq<Note>)
    requires NoteListing(s, userId, folderId, l)
    ensures forall i, j :: 0 <= i < j < |l| ==> Order.Less(l[i].id, l[j].id)
  {
    var ids := NoteIds(l);
    assert forall i :: 0 <= i < |l| ==> ids[i] == l[i].id;
  }

  /** A note listing holds only the user's notes in that folder. */
  lemma {:induction false} NoteListingIsSound(s: Store, userId: string, folderId: string, l: seq<Note>)
    requires NoteListing(s, userId, folderId, l)
    ensures forall i :: 0 <= i < |l| ==> l[i].createdBy == userId && l[i].folderId == folderId
  {
    var ids := NoteIds(l);
    forall i | 0 <= i < |l|
      ensures l[i].createdBy == userId && l[i].folderId == folderId
    {
      assert ids[i] in ids;
    }
  }

  /** A note listing misses none of the user's notes in that folder. */
  lemma {:induction false} NoteListingIsComplete(s: Store, userId: string, folderId: string, l: seq<Note>)
    requires NoteListing(s, userId, folderId, l)
    ensures forall k :: k in s.notes && s.notes[k].createdBy == userId && s.notes[k].folderId == folderId ==>
      exists i :: 0 <= i < |l| && l[i].id == k
  {
    var ids := NoteIds(l);
    forall k | k in s.notes && s.notes[k].createdBy == userId && s.notes[k].folderId == folderId
      ensures exists i :: 0 <= i < |l| && l[i].id == k
    {
      var i :| 0 <= i < |ids| && ids[i] == k;
      assert l[i].id == k;
    }
  }

  /** A folder listing is ordered by strictly ascending document id. */
  lemma {:induction false} FolderListingAscends(s: Store, userId: string, l: seq<Folder>)
    requires FolderListing(s, userId, l)
    ensures forall i, j :: 0 <= i < j < |l| ==> Order.Less(l[i].id, l[j].id)
  {
    var ids := FolderIds(l);
    assert forall i :: 0 <= i < |l| ==> ids[i] == l[i].id;
  }

  /** A folder listing holds only the user's folders. */
  lemma {:induction false} FolderListingIsSound(s: Store, userId: string, l: seq<Folder>)
    requires FolderListing(s, userId, l)
    ensures forall i :: 0 <= i < |l| ==> l[i].createdBy == userId
  {
    var ids := FolderIds(l);
    forall i | 0 <= i < |l|
      ensures l[i].createdBy == userId
    {
      assert ids[i] in ids;
    }
  }

  /** A folder listing misses none of the user's folders. */
  lemma {:induction false} FolderListingIsComplete(s: Store, userId: string, l: seq<Folder>)
    requires FolderListing(s, userId, l)
    ensures forall k :: k in s.folders && s.folders[k].createdBy == userId ==>
      exists i :: 0 <= i < |l| && l[i].id == k
  {
    var ids := FolderIds(l);
    forall k | k in s.folders && s.folders[k].createdBy == userId
      ensures exists i :: 0 <= i < |l| && l[i].id == k
    {
      var i :| 0 <= i < |ids| && ids[i] == k;
      assert l[i].id == k;
    }
  }

  /** `getNotesForFolder`: the user's notes in the folder, or None when the query fails. */
  function GetNotesForFolder(s: Store, userId: string, folderId: string, ok: bool): (r: Option<seq<Note>>)
    ensures r.Some? <==> ok
    ensures ok ==> NoteListing(s, userId, folderId, r.value)
  {
    if !ok then None
    else
      SelectedNotesAreListing(s, userId, folderId);
      Some(ReadNotes(s.notes, SelectNotes(s.notes, userId, folderId)))
  }

  /** `updateNote`: rewrite title and content and stamp `updatedAt`; a missing note fails. */
  function UpdateNote(s: Store, noteId: string, note: Note, ok: bool, now: Timestamp): (r: Completion)
    ensures r.success <==> ok && noteId in s.notes
    ensures !r.success ==> r.store == s
    ensures r.store.folders == s.folders && r.store.grants == s.grants
    ensures r.store.notes.Keys == s.notes.Keys
    ensures forall k :: k in s.notes && k != noteId ==> r.store.notes[k] == s.notes[k]
    ensures r.success ==> var n, o := r.store.notes[noteId], s.notes[noteId];
      && n.title == note.title && n.content == note.content && n.updatedAt == Some(now)
      && n.(title := o.title, content := o.content, updatedAt := o.updatedAt) == o
  {
    if !ok || noteId !in s.notes then Completion(s, false)
    else
      var o := s.notes[noteId];
      Completion(s.(notes := s.notes[noteId := o.(title := note.title, content := note.content, updatedAt := Some(now))]), true)
  }

  /** `deleteNote`: remove the note document; deleting an absent document also succeeds. */
  function DeleteNote(s: Store, noteId: string, ok: bool): (r: Completion)
    ensures r.success == ok
    ensures !ok ==> r.store == s
    ensures r.store.folders == s.folders && r.store.grants == s.grants
    ensures ok ==> r.store.notes.Keys == s.notes.Keys - {noteId}
    ensures forall k :: k in r.store.notes ==> r.store.notes[k] == s.notes[k]
  {
    if !ok then Completion(s, false)
    else Completion(s.(notes := s.notes - {noteId}), true)
  }

  /**
    `deleteNotesInFolder(userId, folderId)`: query the user's notes in the folder
    and delete them in one batch. Either step failing leaves the store unchanged.
   */
  function DeleteNotesInFolder(s: Store, userId: string, folderId: string, queryOk: bool, commitOk: bool): (r: Completion)
    ensures r.success == (queryOk && commitOk)
    ensures !r.success ==> r.store == s
    ensures r.store.folders == s.folders && r.store.grants == s.grants
    ensures r.success ==> forall k :: k in r.store.notes <==>
      k in s.notes && !(s.notes[k].createdBy == userId && s.notes[k].folderId == folderId)
    ensures forall k :: k in r.store.notes ==> r.store.notes[k] == s.notes[k]
  {
    if queryOk && commitOk then
      Completion(s.(notes := Purge(s.notes, (n: Note) => n.createdBy == userId && n.folderId == folderId)), true)
    else Completion(s, false)
  }

  /** `deleteAllNotes(userId)`: delete every note the user created, in one batch. */
  function DeleteAllNotes(s: Store, userId: string, queryOk: bool, commitOk: bool): (r: Completion)
    ensures r.success == (queryOk && commitOk)
    ensures !r.success ==> r.store == s
    ensures r.store.folders == s.folders && r.store.grants == s.grants
    ensures r.success ==> forall k :: k in r.store.notes <==> k in s.notes && s.notes[k].createdBy != userId
    ensures forall k :: k in r.store.notes ==> r.store.notes[k] == s.notes[k]
  {
    if queryOk && commitOk then
      Completion(s.(notes := Purge(s.notes, (n: Note) => n.createdBy == userId)), true)
    else Completion(s, false)
  }

  // -------------------------------------------------------------- folders

  /** `addFolder`: claim the folder for the user, store it under a new id, grant full access. */
  function AddFolder(s: Store, folder: Folder, userId: string, ok: bool, newId: string, now: Timestamp): (r: Creation)
    requires ok ==> FreshId(newId, s.folders.Keys)
    ensures r.success == ok
    ensures r.id == (if ok then newId else "")
    ensures !ok ==> r.store == s
    ensures r.store.notes == s.notes
    ensures ok ==> r.store.folders.Keys == s.folders.Keys + {newId}
    ensures ok ==> forall k :: k in s.folders ==> r.store.folders[k] == s.folders[k]
    ensures ok ==> var f := ReadFolder(newId, r.store.folders[newId]);
      && f.id == newId && f.name == folder.name && f.createdBy == userId
      && f.createdTimestamp.Some? && f.updatedAt.Some?
    ensures ok ==> r.store.grants == s.grants + {Grant(FoldersCollection, newId, userId, FullAccess)}
  {
    if !ok then Creation(s, false, "")
    else
      var claimed := Owned(folder, userId);
      var stored := claimed.(id := "", createdTimestamp := Stamp(claimed.createdTimestamp, now), updatedAt := Stamp(claimed.updatedAt, now));
      Creation(s.(folders := s.folders[newId := stored],
                  grants := s.grants + {Grant(FoldersCollection, newId, userId, FullAccess)}), true, newId)
  }

  /** `getFolders`: the folders the user created, or None when the query fails. */
  function GetFolders(s: Store, userId: string, ok: bool): (r: Option<seq<Folder>>)
    ensures r.Some? <==> ok
    ensures ok ==> FolderListing(s, userId, r.value)
  {
    if !ok then None
    else
      SelectedFoldersAreListing(s, userId);
      Some(ReadFolders(s.folders, SelectFolders(s.folders, userId)))
  }

  /** `renameFolder`: change only the folder's name; a missing folder fails. */
  function RenameFolder(s: Store, folderId: string, newName: string, ok: bool): (r: Completion)
    ensures r.success <==> ok && folderId in s.folders
    ensures !r.success ==> r.store == s
    ensures r.store.notes == s.notes && r.store.grants == s.grants
    ensures r.store.folders.Keys == s.folders.Keys
    ensures forall k :: k in s.folders && k != folderId ==> r.store.folders[k] == s.folders[k]
    ensures r.success ==> r.store.folders[folderId] == WithName(s.folders[folderId], newName)
  {
    if !ok || folderId !in s.folders then Completion(s, false)
    else Completion(s.(folders := s.folders[folderId := s.folders[folderId].(name := newName)]), true)
  }

  /**
    The private `deleteNotesInFolder(folderId)`: query every note in the folder,
    whoever created it, and delete them in one batch.
   */
  function DeleteFolderNotes(s: Store, folderId: string, queryOk: bool, commitOk: bool): (r: Completion)
    ensures r.success == (queryOk && commitOk)
    ensures !r.success ==> r.store == s
    ensures r.store.folders == s.folders && r.store.grants == s.grants
    ensures r.success ==> forall k :: k in r.store.notes <==> k in s.notes && s.notes[k].folderId != folderId
    ensures forall k :: k in r.store.notes ==> r.store.notes[k] == s.notes[k]
  {
    if queryOk && commitOk then
      Completion(s.(notes := Purge(s.notes, (n: Note) => n.folderId == folderId)), true)
    else Completion(s, false)
  }

  /**
    `deleteFolder`: a two-phase cascade. The folder's notes go first; only if
    that batch commits is the folder document deleted. A failure in the second
    phase is not rolled back: the notes stay deleted.
   */
  function DeleteFolder(s: Store, folderId: string, queryOk: bool, commitOk: bool, deleteOk: bool): (r: Completion)
    ensures r.success <==> queryOk && commitOk && deleteOk
    ensures !(queryOk && commitOk) ==> r.store == s
    ensures r.store.grants == s.grants
    ensures queryOk && commitOk ==> forall k :: k in r.store.notes <==> k in s.notes && s.notes[k].folderId != folderId
    ensures forall k :: k in r.store.notes ==> r.store.notes[k] == s.notes[k]
    ensures queryOk && commitOk && deleteOk ==> r.store.folders.Keys == s.folders.Keys - {folderId}
    ensures !(queryOk && commitOk && deleteOk) ==> r.store.folders == s.folders
    ensures forall k :: k in r.store.folders ==> r.store.folders[k] == s.folders[k]
  {
    var purged := DeleteFolderNotes(s, folderId, queryOk, commitOk);
    if !purged.success then Completion(s, false)
    else if deleteOk then Completion(purged.store.(folders := purged.store.folders - {folderId}), true)
    else Completion(purged.store, false)
  }

  /** The user already has a folder named "Default". */
  predicate HasDefault(s: Store, userId: string)
  {
    exists k :: k in s.folders && IsDefaultOf(s.folders[k], userId)
  }

  /**
    `ensureDefaultFolder`: look up the user's "Default" folder (first match by
    id, limit one) and create one only when the lookup finds none.
   */
  function EnsureDefaultFolder(s: Store, userId: string, queryOk: bool, createOk: bool, newId: string, now: Timestamp): (r: Creation)
    requires createOk ==> FreshId(newId, s.folders.Keys)
    ensures !queryOk ==> r == Creation(s, false, "")
    ensures queryOk && HasDefault(s, userId) ==>
      && r.store == s && r.success
      && r.id in s.folders && IsDefaultOf(s.folders[r.id], userId)
      && forall k :: k in s.folders && IsDefaultOf(s.folders[k], userId) ==> Order.Below(r.id, k)
    ensures queryOk && !HasDefault(s, userId) ==>
      && r.success == createOk
      && (createOk ==> r.id == newId && r.store.folders.Keys == s.folders.Keys + {newId})
      && (!createOk ==> r.store == s && r.id == "")
    ensures r.success ==> r.id in r.store.folders && IsDefaultOf(r.store.folders[r.id], userId)
    ensures r.store.notes == s.notes
    ensures forall k :: k in s.folders ==> k in r.store.folders && r.store.folders[k] == s.folders[k]
  {
    if !queryOk then Creation(s, false, "")
    else
      var found := Matching(s.folders, (f: Folder) => IsDefaultOf(f, userId));
      if |found| == 0 then
        AddFolder(s, Folder(name := DefaultFolderName, createdBy := userId), userId, createOk, newId, now)
      else
        assert found[0] in found;
        assert forall k :: k in found ==> Order.Below(found[0], k) by {
          forall k | k in found
            ensures Order.Below(found[0], k)
          {
            var j :| 0 <= j < |found| && found[j] == k;
            if j > 0 {
              assert Order.Less(found[0], found[j]);
            } else {
              Order.BelowReflexive(k);
            }
          }
        }
        Creation(s, true, found[0])
  }

  /**
    Once `ensureDefaultFolder` has succeeded, running it again with a working
    query finds the same folder and creates nothing.
   */
  lemma {:induction false} EnsureDefaultIdempotent(s: Store, userId: string, createOk: bool, newId: string, now: Timestamp,
                                                   createOk': bool, newId': string, now': Timestamp)
    requires createOk ==> FreshId(newId, s.folders.Keys)
    requires HasDefault(s, userId) || createOk
    requires createOk' ==> FreshId(newId', s.folders.Keys) && newId' != newId
    ensures var first := EnsureDefaultFolder(s, userId, true, createOk, newId, now);
      EnsureDefaultFolder(first.store, userId, true, createOk', newId', now') == Creation(first.store, true, first.id)
  {
    var first := EnsureDefaultFolder(s, userId, true, createOk, newId, now);
    var second := EnsureDefaultFolder(first.store, userId, true, createOk', newId', now');
    assert HasDefault(first.store, userId);
    if !HasDefault(s, userId) {
      // The folder just created is the only "Default" folder of the user.
      forall k | k in first.store.folders && k != first.id
        ensures !IsDefaultOf(first.store.folders[k], userId)
      {
        assert k in s.folders;
        assert first.store.folders[k] == s.folders[k];
      }
    } else {
      Order.BelowAntisymmetric(second.id, first.id);
    }
  }

  /**
    A note created with its owner set to the user shows up, with a non-empty
    id and its title and content, when that user lists the note's folder.
   */
  lemma {:induction false} AddedNoteIsListed(s: Store, note: Note, userId: string, newId: string, now: Timestamp)
    requires FreshId(newId, s.notes.Keys)
    requires note.createdBy == userId
    ensures var listed := GetNotesForFolder(AddNote(s, note, userId, true, newId, now).store, userId, note.folderId, true);
      && listed.Some?
      && (exists i :: 0 <= i < |listed.value| && listed.value[i].id == newId && listed.value[i].id != ""
            && listed.value[i].title == note.title && listed.value[i].content == note.content)
  {
    var after := AddNote(s, note, userId, true, newId, now).store;
    var listed := GetNotesForFolder(after, userId, note.folderId, true);
    assert after.notes[newId].createdBy == userId && after.notes[newId].folderId == note.folderId;
    var i :| 0 <= i < |listed.value| && listed.value[i].id == newId;
  }

  /** Every stored folder carries the full-access grant its creator received when it was added. */
  predicate FoldersGranted(s: Store)
  {
    forall k :: k in s.folders ==> Grant(FoldersCollection, k, s.folders[k].createdBy, FullAccess) in s.grants
  }

  /** After a successful `deleteNotesInFolder(userId, folderId)`, listing that folder for that user finds nothing. */
  lemma {:induction false} ClearedFolderListsEmpty(s: Store, userId: string, folderId: string)
    ensures GetNotesForFolder(DeleteNotesInFolder(s, userId, folderId, true, true).store, userId, folderId, true) == Some([])
  {
    var after := DeleteNotesInFolder(s, userId, folderId, true, true).store;
    Order.NothingInEmpty(SelectNotes(after.notes, userId, folderId));
  }

  /** After a successful `updateNote` on a stored note, listing its folder for its owner shows the new text. */
  lemma {:induction false} UpdatedNoteIsListed(s: Store, noteId: string, note: Note, now: Timestamp)
    requires noteId in s.notes
    ensures var o := s.notes[noteId];
      var listed := GetNotesForFolder(UpdateNote(s, noteId, note, true, now).store, o.createdBy, o.folderId, true);
      exists i :: 0 <= i < |listed.value| && listed.value[i].id == noteId
        && listed.value[i].title == note.title && listed.value[i].content == note.content
  {
    var o := s.notes[noteId];
    var after := UpdateNote(s, noteId, note, true, now).store;
    var listed := GetNotesForFolder(after, o.createdBy, o.folderId, true);
    assert after.notes[noteId].createdBy == o.createdBy && after.notes[noteId].folderId == o.folderId;
    var i :| 0 <= i < |listed.value| && listed.value[i].id == noteId;
  }

  /** After a successful `renameFolder`, the owner's folder listing shows the folder under its new name. */
  lemma {:induction false} RenamedFolderIsListed(s: Store, folderId: string, newName: string)
    requires folderId in s.folders
    ensures var listed := GetFolders(RenameFolder(s, folderId, newName, true).store, s.folders[folderId].createdBy, true);
      exists i :: 0 <= i < |listed.value| && listed.value[i].id == folderId && listed.value[i].name == newName
  {
    var after := RenameFolder(s, folderId, newName, true).store;
    var listed := GetFolders(after, s.folders[folderId].createdBy, true);
    assert after.folders[folderId].createdBy == s.folders[folderId].createdBy;
    var i :| 0 <= i < |listed.value| && listed.value[i].id == folderId;
  }

  /**
    A note listing depends only on the documents it selects: two stores that
    select the same ids, holding the same documents under them, list the same.
   */
  lemma {:induction false} ListingDeterminedBySelection(s: Store, t: Store, userId: string, folderId: string)
    requires forall k :: (k in s.notes && s.notes[k].createdBy == userId && s.notes[k].folderId == folderId)
                     <==> (k in t.notes && t.notes[k].createdBy == userId && t.notes[k].folderId == folderId)
    requires forall k :: k in s.notes && s.notes[k].createdBy == userId && s.notes[k].folderId == folderId ==>
      t.notes[k] == s.notes[k]
    ensures GetNotesForFolder(s, userId, folderId, true) == GetNotesForFolder(t, userId, folderId, true)
  {
    var a, b := SelectNotes(s.notes, userId, folderId), SelectNotes(t.notes, userId, folderId);
    assert forall k :: k in a <==> k in b;
    Order.AscendingUnique(a, b);
    ReadNotesAgree(s.notes, t.notes, a);
  }

  /** Reading the same ids from two maps that agree on them gives the same documents. */
  lemma {:induction false} ReadNotesAgree(m1: map<string, Note>, m2: map<string, Note>, ids: seq<string>)
    requires forall k :: k in ids ==> k in m1 && k in m2 && m1[k] == m2[k]
    ensures ReadNotes(m1, ids) == ReadNotes(m2, ids)
  {
    var r1, r2 := ReadNotes(m1, ids), ReadNotes(m2, ids);
    assert forall i :: 0 <= i < |ids| ==> r1[i] == r2[i] by {
      forall i | 0 <= i < |ids|
        ensures r1[i] == r2[i]
      {
        assert ids[i] in ids;
      }
    }
  }

  /** After a successful `deleteNote`, no listing of any folder for any user shows that note. */
  lemma {:induction false} DeletedNoteIsNotListed(s: Store, noteId: string, userId: string, folderId: string)
    ensures var listed := GetNotesForFolder(DeleteNote(s, noteId, true).store, userId, folderId, true);
      listed.Some? && forall i :: 0 <= i < |listed.value| ==> listed.value[i].id != noteId
  {
    var after := DeleteNote(s, noteId, true).store;
    var listed := GetNotesForFolder(after, userId, folderId, true);
    assert forall i :: 0 <= i < |listed.value| ==> listed.value[i].id in after.notes;
  }

  /**
    After a successful `deleteAllNotes(userId)` every folder lists empty for that
    user, and every other user's listings are what they were.
   */
  lemma {:induction false} AllNotesDeletedListsEmpty(s: Store, userId: string, other: string, folderId: string)
    ensures GetNotesForFolder(DeleteAllNotes(s, userId, true, true).store, userId, folderId, true) == Some([])
    ensures other != userId ==>
      GetNotesForFolder(DeleteAllNotes(s, userId, true, true).store, other, folderId, true) == GetNotesForFolder(s, other, folderId, true)
  {
    var after := DeleteAllNotes(s, userId, true, true).store;
    Order.NothingInEmpty(SelectNotes(after.notes, userId, folderId));
    if other != userId {
      ListingDeterminedBySelection(s, after, other, folderId);
    }
  }

  /** A successful `deleteNotesInFolder(userId, folderId)` leaves every other user's or folder's listing as it was. */
  lemma {:induction false} ClearedFolderKeepsOtherListings(s: Store, userId: string, folderId: string, other: string, otherFolder: string)
    requires other != userId || otherFolder != folderId
    ensures GetNotesForFolder(DeleteNotesInFolder(s, userId, folderId, true, true).store, other, otherFolder, true)
         == GetNotesForFolder(s, other, otherFolder, true)
  {
    ListingDeterminedBySelection(s, DeleteNotesInFolder(s, userId, folderId, true, true).store, other, otherFolder);
  }
}
