/**
  The records the application stores: notes, folders and permissions
  (SimpleNote/.../data/models/DBModels.kt). Every field has the default value the
  source gives it, so `Note()` is the blank note the editor starts from and
  `Folder(name := n)` is a folder that only has a name.
 */
module Models {
  import opened Options

  /** A time assigned by the document store's server; the model never inspects it. */
  datatype Timestamp = Timestamp(seconds: int, nanoseconds: int)

  /**
    A note. `id` is an ordinary stored field, written after creation; an empty
    `id` marks a note that has not been stored yet. `firestoreId` is a
    document-id field: it is never written, and every read fills it with the
    document id.
   */
  datatype Note = Note(
    id: string := "",
    folderId: string := "",
    title: string := "",
    content: string := "",
    createdBy: string := "",
    createdTimestamp: Option<Timestamp> := None,
    updatedAt: Option<Timestamp> := None,
    firestoreId: string := "")

  /** A folder. `id` is a document-id field: it is never written, and every read fills it with the document id. */
  datatype Folder = Folder(
    id: string := "",
    name: string := "",
    createdBy: string := "",
    createdTimestamp: Option<Timestamp> := None,
    updatedAt: Option<Timestamp> := None)

  datatype Permission = Permission(canEdit: bool := false, canView: bool := false)

  /** What a creator is granted on the note or folder they create. */
  const FullAccess: Permission := Permission(canEdit := true, canView := true)

  /** The name of each user's protected folder. */
  const DefaultFolderName: string := "Default"

  /** The "not yet stored" marker the save path branches on. */
  predicate IsUnsaved(n: Note)
  {
    n.id == ""
  }

  /** `f.copy(name = name)`: the same folder under another name. */
  function WithName(f: Folder, name: string): (g: Folder)
    ensures g.name == name
    ensures g.(name := f.name) == f
    ensures g == f <==> f.name == name
  {
    f.(name := name)
  }

  /** A blank note carries no identity, placement, text, owner or timestamps. */
  lemma FreshNoteIsUnsaved()
    ensures IsUnsaved(Note())
    ensures Note().folderId == "" && Note().title == "" && Note().content == ""
    ensures Note().createdBy == "" && Note().firestoreId == ""
    ensures Note().createdTimestamp.None? && Note().updatedAt.None?
  {
  }

  /** A blank folder carries no id, name, owner or timestamps. */
  lemma FreshFolderIsBlank()
    ensures Folder().id == "" && Folder().name == "" && Folder().createdBy == ""
    ensures Folder().createdTimestamp.None? && Folder().updatedAt.None?
  {
  }

  /** A permission grants nothing unless a right is named. */
  lemma DefaultPermissionDeniesAll()
    ensures !Permission().canEdit && !Permission().canView
    ensures Permission(canEdit := true) != FullAccess && Permission(canView := true) != FullAccess
  {
  }
}
