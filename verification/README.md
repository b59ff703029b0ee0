# SimpleNote: the notes-and-folders core, modelled in Dafny

SimpleNote is an Android note-taking app. Each signed-in user owns folders and
notes, kept in two document collections of a remote database. Every user has a
protected folder named "Default". The part modelled here has three layers:

- **Records** (`models.dfy`, module `Models`): `Note`, `Folder` and
  `Permission`. Every field carries the default value the app gives it.
- **Data helper** (`store.dfy`, module `Store`): the database becomes a value.
  - A `Store` holds a map of folder documents, a map of note documents (both
    keyed by document id) and the permission documents written beside them.
  - Each helper method is a pure transition.
  - The outcome the database reports through its success and failure callbacks
    becomes a parameter: an `ok` flag per remote step, the id assigned to a new
    document, and the server time.
  - Query results come back in ascending document-id order (`order.dfy`, module
    `Order`, with the filtering helpers in `seqs.dfy`, module `Seqs`). That order
    decides which folder a `limit(1)` lookup returns.
- **View model** (`session.dfy`, module `Session`): the observable values form one
  immutable `Session` record.
  - Every public operation returns the new record plus the data-helper calls it
    issues (`Call`). It does not wait for them.
  - Each call's completion callback is its own transition (`On…`).
  - The selected-folder observer is modelled wherever a folder selection is
    published: publishing a folder issues a note fetch for it.
- **Screens** (`forms.dfy`, module `Forms`): the input checks the editor and the
  rename dialog apply before they call the view model. These are `trim()` and
  the refusal of blank text.
- **Composition** (`app.dfy`, module `App`): a `World` holds the store, the
  session and the pending calls.
  - A user action (`Act`) queues calls.
  - `Serve` completes any one pending call: first the helper's transition on the
    store (`Perform`), then the view model's callback (`Callback`).
  - Calls can complete in any order. That is the asynchrony between the view
    model's calls. A helper method that makes several remote requests
    (`ensureDefaultFolder`'s lookup and create, `deleteFolder`'s query, batch
    and delete) is served as one step, so nothing interleaves inside it.
  - Every action and every completion preserves an invariant: each stored folder
    keeps its creator's full-access grant, and the published folder list never
    shows a "Default" folder. The grant half rests on the permission writes
    succeeding, which the model assumes (see "Left out"); no code of the app
    reads the grants back.

Behaviours of the code that the model keeps as written:

- A note query that completes late is still published, even after the user has
  selected another folder. No callback checks whether its result is current.
- A failed note query publishes null.
- After `addFolder` succeeds, the selection is the submitted folder object. That
  object carries the owner the helper wrote into it, but its `id` is not the new
  document id.
- `addNote` does not set the note's owner; only the permission uses the user
  id. The editor sets the owner before it saves.
- The first phase of `deleteFolder` deletes every note in the folder, whoever
  created it. If the folder document then fails to delete, the notes stay deleted.
- Logging out keeps the selected folder, the selected note and the default
  folder.
- Updating or renaming a missing document fails. Deleting a missing document
  succeeds.

## Model

| member | source | states |
|---|---|---|
| Order.SortedKeys | SimpleNote/app/src/main/java/edu/cs371m/project/simplenote/data/ViewModelDBHelper.kt:254-258 | query results are listed by document id: the listing is strictly ascending and holds exactly the given ids, each once |
| Seqs.Filter | SimpleNote/app/src/main/java/edu/cs371m/project/simplenote/ui/MainViewModel.kt:160 | Kotlin `filter`: an element is kept if and only if it was present and satisfies the predicate, with every kept element occurring exactly as often as in the input and every rejected one not at all |
| Seqs.FilterIsSubsequence | SimpleNote/app/src/main/java/edu/cs371m/project/simplenote/ui/MainViewModel.kt:267 | filtering keeps the survivors in their original relative order |
| Seqs.FilterKeepsAscending | SimpleNote/app/src/main/java/edu/cs371m/project/simplenote/data/ViewModelDBHelper.kt:50-57 | a `whereEqualTo` selection of an id-ordered listing is still in ascending id order |
| Models.WithName | SimpleNote/app/src/main/java/edu/cs371m/project/simplenote/ui/MainViewModel.kt:242 | `copy(name = …)` sets the name and changes no other field, so the copy equals the original exactly when the name was already the same |
| Models.FreshNoteIsUnsaved | SimpleNote/app/src/main/java/edu/cs371m/project/simplenote/data/models/DBModels.kt:13-22 | a default note has an empty id, so it counts as unsaved, and every text field is empty and both timestamps are null |
| Models.FreshFolderIsBlank | SimpleNote/app/src/main/java/edu/cs371m/project/simplenote/data/models/DBModels.kt:24-30 | a default folder has an empty id, name and owner, and null timestamps |
| Models.DefaultPermissionDeniesAll | SimpleNote/app/src/main/java/edu/cs371m/project/simplenote/data/models/DBModels.kt:32-35 | a default permission grants neither right; granting only one right is not full access |
| Store.Stamp | SimpleNote/app/src/main/java/edu/cs371m/project/simplenote/data/models/DBModels.kt:19-20 | a server-timestamp field is always filled after a write, and a value the client already set is kept |
| Store.Owned | SimpleNote/app/src/main/java/edu/cs371m/project/simplenote/data/ViewModelDBHelper.kt:98 | the submitted folder now names the user as its owner, and no other field changes |
| Store.AddNote | SimpleNote/app/src/main/java/edu/cs371m/project/simplenote/data/ViewModelDBHelper.kt:15-31 | on success exactly one note is added, under a fresh id; it keeps the submitted text, folder and owner; its id field is set to that id; the user gets a full-access grant. Existing notes and all folders are untouched. A failure changes nothing |
| Store.SelectNotes | SimpleNote/app/src/main/java/edu/cs371m/project/simplenote/data/ViewModelDBHelper.kt:50-57 | the two `whereEqualTo` filters select the ids of exactly the notes with that owner and that folder, in ascending id order |
| Store.SelectFolders | SimpleNote/app/src/main/java/edu/cs371m/project/simplenote/data/ViewModelDBHelper.kt:113-118 | the `whereEqualTo` filter selects the ids of exactly the user's folders, in ascending id order |
| Store.GetNotesForFolder | SimpleNote/app/src/main/java/edu/cs371m/project/simplenote/data/ViewModelDBHelper.kt:50-64 | None if and only if the query fails; otherwise the listing is the selected ids in order, each document read back with its document id |
| Store.NoteListingAscends | SimpleNote/app/src/main/java/edu/cs371m/project/simplenote/data/ViewModelDBHelper.kt:50-64 | a note listing is in strictly ascending document-id order, so no note appears twice |
| Store.NoteListingIsSound | SimpleNote/app/src/main/java/edu/cs371m/project/simplenote/data/ViewModelDBHelper.kt:50-57 | a note listing holds only notes of that user in that folder |
| Store.NoteListingIsComplete | SimpleNote/app/src/main/java/edu/cs371m/project/simplenote/data/ViewModelDBHelper.kt:50-64 | every stored note of that user in that folder appears in the listing |
| Store.ListingDeterminedBySelection | SimpleNote/app/src/main/java/edu/cs371m/project/simplenote/data/ViewModelDBHelper.kt:50-64 | two stores holding the same selected documents list the same notes, whatever else they hold |
| Store.UpdateNote | SimpleNote/app/src/main/java/edu/cs371m/project/simplenote/data/ViewModelDBHelper.kt:67-77 | succeeds if and only if the write is accepted and the note exists; only title, content and `updatedAt` of that note change; a failure changes nothing |
| Store.DeleteNote | SimpleNote/app/src/main/java/edu/cs371m/project/simplenote/data/ViewModelDBHelper.kt:80-86 | on success exactly that note id is gone (deleting an absent note also succeeds); the remaining notes and all folders are untouched |
| Store.DeleteNotesInFolder | SimpleNote/app/src/main/java/edu/cs371m/project/simplenote/data/ViewModelDBHelper.kt:279-298 | succeeds if and only if both the query and the batch commit do; a note is removed if and only if it belongs to that user and that folder; a failed query or commit changes nothing |
| Store.DeleteAllNotes | SimpleNote/app/src/main/java/edu/cs371m/project/simplenote/data/ViewModelDBHelper.kt:224-240 | on success a note survives if and only if another user created it; otherwise nothing changes |
| Store.AddFolder | SimpleNote/app/src/main/java/edu/cs371m/project/simplenote/data/ViewModelDBHelper.kt:97-110 | on success exactly one folder is added, under the returned fresh id; it is owned by the user, keeps the submitted name and carries timestamps; the user gets a full-access grant. On failure the returned id is "" and nothing changes |
| Store.GetFolders | SimpleNote/app/src/main/java/edu/cs371m/project/simplenote/data/ViewModelDBHelper.kt:113-129 | None if and only if the query fails; otherwise the listing is the user's selected folder ids in order, each document read back with its document id |
| Store.FolderListingAscends | SimpleNote/app/src/main/java/edu/cs371m/project/simplenote/data/ViewModelDBHelper.kt:113-129 | a folder listing is in strictly ascending document-id order |
| Store.FolderListingIsSound | SimpleNote/app/src/main/java/edu/cs371m/project/simplenote/data/ViewModelDBHelper.kt:113-118 | a folder listing holds only folders the user created |
| Store.FolderListingIsComplete | SimpleNote/app/src/main/java/edu/cs371m/project/simplenote/data/ViewModelDBHelper.kt:113-129 | every stored folder of the user appears in the listing |
| Store.RenameFolder | SimpleNote/app/src/main/java/edu/cs371m/project/simplenote/data/ViewModelDBHelper.kt:243-250 | succeeds if and only if the write is accepted and the folder exists; only that folder's name changes |
| Store.DeleteFolderNotes | SimpleNote/app/src/main/java/edu/cs371m/project/simplenote/data/ViewModelDBHelper.kt:170-201 | the private helper removes every note in the folder, whoever created it, if and only if query and commit succeed; otherwise nothing changes |
| Store.DeleteFolder | SimpleNote/app/src/main/java/edu/cs371m/project/simplenote/data/ViewModelDBHelper.kt:142-167 | the folder is removed only after its notes are. A failed note phase changes nothing. A failed folder delete reports failure but leaves the notes deleted. Success is reported if and only if all three steps succeed |
| Store.EnsureDefaultFolder | SimpleNote/app/src/main/java/edu/cs371m/project/simplenote/data/ViewModelDBHelper.kt:253-277 | a failed lookup gives (false, "") and no change. An existing "Default" folder of the user is returned: the least such id, with no write. Otherwise one is created under the new id, or nothing changes if the create fails. On success the id names the user's "Default" folder |
| Store.EnsureDefaultIdempotent | SimpleNote/app/src/main/java/edu/cs371m/project/simplenote/data/ViewModelDBHelper.kt:253-277 | after a successful run, a second run with a working query returns the same id and leaves the store as it is |
| Store.AddedNoteIsListed | SimpleNote/app/src/main/java/edu/cs371m/project/simplenote/data/ViewModelDBHelper.kt:15-31 | a note added with its owner set to the user appears, with a non-empty id and its text, when that user lists the note's folder |
| Store.UpdatedNoteIsListed | SimpleNote/app/src/main/java/edu/cs371m/project/simplenote/data/ViewModelDBHelper.kt:67-77 | after a successful update, listing the note's folder for its owner shows the new title and content |
| Store.ClearedFolderListsEmpty | SimpleNote/app/src/main/java/edu/cs371m/project/simplenote/data/ViewModelDBHelper.kt:279-298 | after clearing a user's folder, listing it for that user returns an empty list |
| Store.DeletedNoteIsNotListed | SimpleNote/app/src/main/java/edu/cs371m/project/simplenote/data/ViewModelDBHelper.kt:80-86 | after a successful delete no listing, for any user and folder, shows the note |
| Store.AllNotesDeletedListsEmpty | SimpleNote/app/src/main/java/edu/cs371m/project/simplenote/data/ViewModelDBHelper.kt:224-240 | after deleting all of a user's notes, every folder lists empty for that user and every other user's listings are unchanged |
| Store.ClearedFolderKeepsOtherListings | SimpleNote/app/src/main/java/edu/cs371m/project/simplenote/data/ViewModelDBHelper.kt:279-298 | clearing one user's folder leaves the listing of every other user or folder unchanged |
| Store.RenamedFolderIsListed | SimpleNote/app/src/main/java/edu/cs371m/project/simplenote/data/ViewModelDBHelper.kt:243-250 | after a successful rename, the owner's folder listing shows the folder under its new name |
| Session.FetchNotesForFolder | SimpleNote/app/src/main/java/edu/cs371m/project/simplenote/ui/MainViewModel.kt:142-152 | a signed-in user gets exactly one note query, for that user and folder; a signed-out session issues nothing; the session is unchanged |
| Session.FetchFolders | SimpleNote/app/src/main/java/edu/cs371m/project/simplenote/ui/MainViewModel.kt:155-167 | a signed-in user gets exactly one folder query, for that user; a signed-out session issues nothing |
| Session.OnFoldersFetched | SimpleNote/app/src/main/java/edu/cs371m/project/simplenote/ui/MainViewModel.kt:159-163 | a failed query publishes null. Otherwise the published list keeps the fetched order and holds a folder, as often as it was fetched, if and only if it has neither the default id nor the name "Default". Nothing else changes |
| Session.OnNotesFetched | SimpleNote/app/src/main/java/edu/cs371m/project/simplenote/ui/MainViewModel.kt:146-148 | the fetched list, or null, is published as is, whichever folder is selected now; nothing else changes |
| Session.OnAuthUser | SimpleNote/app/src/main/java/edu/cs371m/project/simplenote/ui/MainViewModel.kt:43-63 | a uid other than "-1" and other than the current user becomes current. It then issues the default-folder lookup, the folder query and, if a folder is selected, its note query, in that order, and no other write. Any other event changes nothing |
| Session.HandleUserLogout | SimpleNote/app/src/main/java/edu/cs371m/project/simplenote/ui/MainViewModel.kt:65-72 | the user is forgotten, both lists are published empty and sign-out is requested; the selections and the default folder are kept |
| Session.AuthEventIdempotent | SimpleNote/app/src/main/java/edu/cs371m/project/simplenote/ui/MainViewModel.kt:46-49 | re-sending the current user changes nothing and issues no call |
| Session.LogoutThenLoginReinitialises | SimpleNote/app/src/main/java/edu/cs371m/project/simplenote/ui/MainViewModel.kt:43-72 | after a logout, the same user signing in again becomes current and the default-folder lookup is issued again |
| Session.OnDefaultFolder | SimpleNote/app/src/main/java/edu/cs371m/project/simplenote/ui/MainViewModel.kt:75-89 | on success the id becomes the default folder, which is also published as the selection (so its notes are fetched); on failure nothing changes |
| Session.SelectFolder | SimpleNote/app/src/main/java/edu/cs371m/project/simplenote/ui/MainViewModel.kt:30-36 | selecting a folder fetches exactly that folder's notes for the signed-in user |
| Session.OnFolderAdded | SimpleNote/app/src/main/java/edu/cs371m/project/simplenote/ui/MainViewModel.kt:96-105 | on success the submitted folder is selected with its owner set but its old id, and a signed-in session issues exactly the folder query and that selection's note query, never a write; signed out, nothing is issued; on failure only the status changes |
| Session.RenameFolder | SimpleNote/app/src/main/java/edu/cs371m/project/simplenote/ui/MainViewModel.kt:226-236 | the default folder is refused with the rename message and no call. Any other folder gets exactly one rename call and no state change |
| Session.RenameSelectedFolder | SimpleNote/app/src/main/java/edu/cs371m/project/simplenote/ui/MainViewModel.kt:219-223 | renames the selected folder through the same guard; with no selection nothing happens |
| Session.OnFolderRenamed | SimpleNote/app/src/main/java/edu/cs371m/project/simplenote/ui/MainViewModel.kt:236-252 | on success a selected folder with that id takes the new name, any other selection is kept, the folder list is refreshed, and no store write is issued; on failure only the status changes |
| Session.DeleteFolder | SimpleNote/app/src/main/java/edu/cs371m/project/simplenote/ui/MainViewModel.kt:256-265 | the default folder is refused with the delete message and no call. Any other folder gets exactly one delete call |
| Session.OnFolderDeleted | SimpleNote/app/src/main/java/edu/cs371m/project/simplenote/ui/MainViewModel.kt:265-279 | on success the published list loses exactly the deleted id and keeps its order. The default folder becomes the selection, and its notes are queried twice. A signed-out session issues nothing, and no write is ever issued. On failure only the status changes |
| Session.AddOrUpdateNote | SimpleNote/app/src/main/java/edu/cs371m/project/simplenote/ui/MainViewModel.kt:169-195 | signed out: nothing. A note with an empty id is created for the user; any other note is updated under its own id |
| Session.OnNoteSaved | SimpleNote/app/src/main/java/edu/cs371m/project/simplenote/ui/MainViewModel.kt:174-190 | the status names the outcome: added or failed to add for a create, updated or failed to update for an update. Success refetches the selected folder's notes. Failure, no selection, or a signed-out session issues nothing |
| Session.OnNoteDeleted | SimpleNote/app/src/main/java/edu/cs371m/project/simplenote/ui/MainViewModel.kt:206-215 | on success the published list loses exactly the notes with that id, keeps every other note as often as it occurred and in order, and the note selection is cleared; on failure only the status changes |
| Session.DefaultFolderIsProtected | SimpleNote/app/src/main/java/edu/cs371m/project/simplenote/ui/MainViewModel.kt:226-261 | once the default folder is known, renaming or deleting it issues no call and leaves the selection and the folder list alone |
| Forms.Trim | SimpleNote/app/src/main/java/edu/cs371m/project/simplenote/ui/EditNoteFragment.kt:42-43 | `trim()` returns the slice of the input without leading and trailing whitespace; it is empty if and only if the input is all whitespace |
| Forms.SaveNote | SimpleNote/app/src/main/java/edu/cs371m/project/simplenote/ui/EditNoteFragment.kt:41-64 | blank title or content issues nothing, and neither does a signed-out session. Any call issued is one create or update of the trimmed text, owned by the user and filed under the selected folder (or "defaultFolderId"); it is a create, for the current user, exactly when no saved note is selected, and otherwise an update addressed to the selected note's id. Non-blank text from a signed-in user always issues it |
| Forms.SubmitRename | SimpleNote/app/src/main/java/edu/cs371m/project/simplenote/ui/NotesFragment.kt:106-110 | a blank name is dropped; any other name is trimmed and goes through the view model's default-folder guard |
| App.Serve | SimpleNote/app/src/main/java/edu/cs371m/project/simplenote/ui/MainViewModel.kt:95-106 | completing one call (the store's side `App.Perform`, then the session's side `App.Callback`) leaves the other pending calls queued in order, a query or sign-out leaves the store unchanged, and only a folder deletion can remove a folder |
| App.Act | SimpleNote/app/src/main/java/edu/cs371m/project/simplenote/ui/MainViewModel.kt:92-108 | a user action never touches the store directly; it only appends calls after those already pending |
| App.StartSatisfiesInvariant | SimpleNote/app/src/main/java/edu/cs371m/project/simplenote/ui/MainViewModel.kt:18-26 | the empty store and the all-null session satisfy the invariant |
| App.ActPreservesInvariant | SimpleNote/app/src/main/java/edu/cs371m/project/simplenote/ui/MainViewModel.kt:155-167 | no user action can put a "Default" folder into the published list or drop a folder's grant |
| App.PerformKeepsGrants | SimpleNote/app/src/main/java/edu/cs371m/project/simplenote/data/ViewModelDBHelper.kt:97-110 | the store's side of every call keeps each stored folder's creator grant, given that the fire-and-forget permission write succeeds |
| App.ServePreservesInvariant | SimpleNote/app/src/main/java/edu/cs371m/project/simplenote/data/ViewModelDBHelper.kt:97-110 | completing any call, with any outcome, keeps every stored folder's creator grant (given that permission writes succeed) and keeps "Default" out of the published folder list |
| App.ServedQueryPublishesListing | SimpleNote/app/src/main/java/edu/cs371m/project/simplenote/ui/MainViewModel.kt:142-152 | serving a note query publishes exactly the store's current listing for that user and folder and changes nothing else |
| App.DefaultFolderGuard | SimpleNote/app/src/main/java/edu/cs371m/project/simplenote/ui/MainViewModel.kt:226-261 | a refused rename or delete of the default folder queues nothing, so the store cannot change; only the status and message values change |
| App.RenameSelectedFolderScenario | SimpleNote/app/src/main/java/edu/cs371m/project/simplenote/ui/MainViewModel.kt:219-254 | once its one call succeeds, renaming the selected folder shows the new name in the selection and in the store, and changes no note |
| App.StaleNoteFetchIsPublished | SimpleNote/app/src/main/java/edu/cs371m/project/simplenote/ui/MainViewModel.kt:142-152 | a note query for folder a that completes after folder b was selected still publishes a's notes while b stays selected |
| App.FolderDeletionCascade | SimpleNote/app/src/main/java/edu/cs371m/project/simplenote/ui/MainViewModel.kt:256-280 | a fully successful deletion leaves no note in the folder, no folder document, no list entry, and the default folder selected; a failed note phase changes no document and reports failure |
| App.DefaultFolderBootstrap | SimpleNote/app/src/main/java/edu/cs371m/project/simplenote/ui/MainViewModel.kt:43-89 | a first sign-in against an empty store creates, records and selects the user's "Default" folder. Signing out and in again, the lookup succeeds with that same folder whether or not a write would succeed, records and selects it again, and writes nothing |
| App.AddFolderScenario | SimpleNote/app/src/main/java/edu/cs371m/project/simplenote/ui/MainViewModel.kt:92-108 | the `AddFolder` action (`Session.AddFolder`, then `Session.OnFolderAdded`): once its create call succeeds, the store holds a folder with the submitted name owned by the user under the fresh id, while the selection is the submitted folder with its owner set and its submitted id; the folder list and the selection's notes are fetched next |
| App.DeleteSelectedNoteScenario | SimpleNote/app/src/main/java/edu/cs371m/project/simplenote/ui/MainViewModel.kt:197-217 | picking a note (`Session.SelectNote`) and deleting it (`Session.DeleteSelectedNote`, which calls `Session.DeleteNote`): once the call succeeds the note is gone from the store and from the published list, the selection is cleared, and nothing else is queued |
| App.DeleteAllNotesScenario | SimpleNote/app/src/main/java/edu/cs371m/project/simplenote/ui/MainViewModel.kt:110-125 | `Session.DeleteAllNotes`: once the batch succeeds the callback (`Session.OnFolderNotesDeleted`) refetches the selected folder, and serving that refetch publishes an empty list |
| App.SaveNoteScenario | SimpleNote/app/src/main/java/edu/cs371m/project/simplenote/ui/EditNoteFragment.kt:41-63 | saving new text from the editor stores the trimmed note under the fresh id, and the refetch the callback queues publishes a list showing it with the trimmed title and content |
| App.ServedEditUpdatesNote | SimpleNote/app/src/main/java/edu/cs371m/project/simplenote/ui/MainViewModel.kt:183-190 | serving a successful update of a stored note applies it to the store, reports "Note updated successfully" and refetches the selected folder |
| App.EditNoteScenario | SimpleNote/app/src/main/java/edu/cs371m/project/simplenote/ui/EditNoteFragment.kt:50-61 | saving the editor over the selected stored note issues an update addressed to that note's id; once it succeeds the store holds the trimmed title and content under the same id, and, when the note is the user's and filed in the selected folder, the refetch shows it with the new text |

## Left out

- `getNotes`, `fetchNotes`, `getNoteById` and `updateFolder`: no part of the modelled core calls them.
- The `loading` flag and the log messages: they are presentation only and never read back.
- The `user == null` branch of `listenToAuthState`: it comes after `user.uid` has been read, so it is unreachable and is not modelled. Only events carrying a uid are modelled.
- `setPermission` and `setFolderPermission` failures, and the failure of the follow-up `update("id", …)` after `addNote`: they run fire-and-forget, and the model assumes they succeed. The grant half of `App.Invariant` holds only under this assumption; the app never reads grants back.
- App.Serve: each helper method is served as one atomic step. Interleavings inside a multi-request helper are not modelled: two concurrent default-folder lookups that both find nothing and both create a "Default" folder, or a note added between `deleteFolder`'s note query and its batch, which would survive the deletion.
- Session.RenameFolder: after `addFolder` the selection carries the submitted folder's id, "" for the folder the app creates. Renaming that selection reaches `document("")`, which throws in the app; the model issues the call and the store reports an ordinary failure ("Failed to rename folder").
- Session.DeleteFolder: deleting that same selection purges the notes filed under folder id "" and then reaches `document("")`, which throws in the app; the model completes the delete of the absent document and reports "Folder deleted successfully".
- The `User` record: nothing in the app creates or reads it.
- Batch-size limits of the database, document paths that would be rejected (an empty id), and the values of server timestamps: `Store.Stamp` only records that a time is written.
- Session.OnFolderNotesDeleted: the null dereference of the selection in the `deleteAllNotes` callback throws in the app; the model treats it as a callback with no effect.
- The order query results are returned in is not stated by the code. The model takes ascending document id, which is the database's documented default when no order is requested.
- Authentication, navigation, the lists' adapters, threading and LiveData delivery: these are outside the core. Posting a value is modelled as setting it.
