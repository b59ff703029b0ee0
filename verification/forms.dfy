/**
  The input checks the screens apply before calling the view model: the note
  editor (SimpleNote/.../ui/EditNoteFragment.kt) refuses a note whose trimmed
  title or content is empty, and the rename dialog
  (SimpleNote/.../ui/NotesFragment.kt) refuses a blank folder name. Neither
  refusal reaches the view model, so neither issues a call.
 */
module Forms {
  import opened Options
  import opened Models
  import Session

  /**
    The characters `trim()` removes: the JVM's whitespace characters together
    with its space separators (including the no-break spaces).
   */
  predicate IsWhitespace(c: char)
  {
    || c == ' ' || '\t' <= c <= '\r' || '\U{1C}' <= c <= '\U{1F}'
    || c == '\U{A0}' || c == '\U{1680}' || '\U{2000}' <= c <= '\U{200A}'
    || c == '\U{2028}' || c == '\U{2029}' || c == '\U{202F}' || c == '\U{205F}' || c == '\U{3000}'
  }

  predicate AllWhitespace(s: string)
  {
    forall k :: 0 <= k < |s| ==> IsWhitespace(s[k])
  }

  /** The number of leading whitespace characters. */
  function Leading(s: string): (i: nat)
    ensures i <= |s|
    ensures forall k :: 0 <= k < i ==> IsWhitespace(s[k])
    ensures i < |s| ==> !IsWhitespace(s[i])
  {
    if |s| == 0 || !IsWhitespace(s[0]) then 0 else 1 + Leading(s[1..])
  }

  /** The length of `s` without its trailing whitespace. */
  function Trailing(s: string): (j: nat)
    ensures j <= |s|
    ensures forall k :: j <= k < |s| ==> IsWhitespace(s[k])
    ensures j > 0 ==> !IsWhitespace(s[j - 1])
  {
    if |s| == 0 || !IsWhitespace(s[|s| - 1]) then |s| else Trailing(s[..|s| - 1])
  }

  /** `trim()`: the longest slice of `s` that neither starts nor ends with whitespace. */
  function Trim(s: string): (r: string)
    ensures Leading(s) + |r| <= |s| && r == s[Leading(s)..Leading(s) + |r|]
    ensures forall k :: Leading(s) + |r| <= k < |s| ==> IsWhitespace(s[k])
    ensures |r| > 0 ==> !IsWhitespace(r[0]) && !IsWhitespace(r[|r| - 1])
    ensures |r| == 0 <==> AllWhitespace(s)
  {
    var i := Leading(s);
    var j := Trailing(s[i..]);
    assert i < |s| ==> j > 0;
    assert s[i..][..j] == s[i..i + j];
    s[i..i + j]
  }

  /** The folder id the editor files a note under when no folder is selected. */
  const UnselectedFolderId: string := "defaultFolderId"

  /**
    Saving the editor: a blank title or content is refused on the spot;
    otherwise the trimmed text is saved as the selected note (or a new one),
    in the selected folder, owned by the current user.
   */
  function SaveNote(s: Session.Session, rawTitle: string, rawContent: string): (r: Session.Step)
    ensures AllWhitespace(rawTitle) || AllWhitespace(rawContent) ==> r == Session.Step(s, [])
    ensures r.session == s
    ensures |r.calls| <= 1
    ensures |r.calls| == 1 ==>
      && (r.calls[0].CreateNote? || r.calls[0].EditNote?)
      && r.calls[0].note.title == Trim(rawTitle) && r.calls[0].note.content == Trim(rawContent)
      && r.calls[0].note.title != "" && r.calls[0].note.content != ""
      && r.calls[0].note.folderId == (if s.selectedFolder.Some? then s.selectedFolder.value.id else UnselectedFolderId)
      && r.calls[0].note.createdBy == s.currentUserId.GetOr("")
      && (r.calls[0].CreateNote? <==> s.selectedNote.None? || s.selectedNote.value.id == "")
    ensures !AllWhitespace(rawTitle) && !AllWhitespace(rawContent) && s.currentUserId.Some? ==> |r.calls| == 1
    ensures s.currentUserId.None? ==> r.calls == []
    ensures |r.calls| == 1 && r.calls[0].EditNote? ==>
      s.selectedNote.Some? && r.calls[0].noteId == s.selectedNote.value.id == r.calls[0].note.id
    ensures |r.calls| == 1 && r.calls[0].CreateNote? ==> r.calls[0].userId == s.currentUserId.value
  {
    var title := Trim(rawTitle);
    var content := Trim(rawContent);
    if title == "" || content == "" then Session.Step(s, [])
    else
      var note := Note(
        id := if s.selectedNote.Some? then s.selectedNote.value.id else "",
        folderId := if s.selectedFolder.Some? then s.selectedFolder.value.id else UnselectedFolderId,
        title := title,
        content := content,
        createdBy := s.currentUserId.GetOr(""));
      Session.AddOrUpdateNote(s, note)
  }

  /** Confirming the rename dialog: a blank name is dropped, any other is trimmed and passed on. */
  function SubmitRename(s: Session.Session, folderId: string, rawName: string): (r: Session.Step)
    ensures AllWhitespace(rawName) ==> r == Session.Step(s, [])
    ensures !AllWhitespace(rawName) && Some(folderId) != s.defaultFolderId ==>
      && r.session == s
      && exists name :: r.calls == [Session.NameFolder(folderId, name)] && name == Trim(rawName) && name != ""
    ensures !AllWhitespace(rawName) && Some(folderId) == s.defaultFolderId ==>
      r.calls == [] && r.session.status == Some(Session.RenameRefusal)
  {
    var name := Trim(rawName);
    if name == "" then Session.Step(s, []) else Session.RenameFolder(s, folderId, name)
  }
}
