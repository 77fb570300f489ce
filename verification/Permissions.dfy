/** Who may change what, and that accepted changes are the ones asked for. */
module Permissions {
  import opened Wrappers
  import opened Notes
  import opened Leases
  import opened Histories

  /** Owner, creation date and board flags, and who may see the note. */
  predicate SameSharing(a: Note, b: Note) {
    && a.owner == b.owner && a.createdAt == b.createdAt
    && a.visibility == b.visibility && a.pinned == b.pinned && a.archived == b.archived
  }

  lemma EditSharing(id: Id, entry: Entry, changes: Changes, c: Call)
    requires HasContent(changes) && changes.visibility.None? && changes.pinned.None? && changes.archived.None?
    ensures var o := BorrowedEdit(id, entry, changes, c);
      o.entry.Some? && SameSharing(o.entry.value.note, entry.note)
  {
    EditResult(id, entry, changes, c);
  }

  /** What a guarded edit leaves of the row, accepted or not. */
  lemma EditResult(id: Id, entry: Entry, changes: Changes, c: Call)
    requires HasContent(changes)
    ensures var o := BorrowedEdit(id, entry, changes, c);
      && o.entry.Some?
      && (if o.reply.Shown? then
            var after, asked := o.entry.value.note, Applied(entry.note, changes, c.now);
            after.(lockedBy := None, lockedAt := None, expiresAt := None)
              == asked.(lockedBy := None, lockedAt := None, expiresAt := None)
          else o.entry == Some(entry) && o.reply.Conflict?)
  {
  }

  /** Sharing and organizing are the owner's: no request of anyone else touches them. */
  lemma OthersCannotShareOrOrganize(id: Id, entry: Entry, c: Call)
    requires c.caller.id != entry.note.owner
    ensures var o := Step(id, Some(entry), c);
      o.entry.Some? ==> SameSharing(o.entry.value.note, entry.note)
  {
    hide BorrowedEdit, PatchStep, RecordSession, Grantable, ConflictDetail, ViewOf, Acquired, Renewing;
    match c.request {
      case Restore(versionId) =>
        var version := FindVersion(entry.history, versionId);
        if version.Some? {
          EditSharing(id, entry, RestoredChanges(version.value, entry.note, c.caller.id), c);
        }
      case AgentUpdate(title, body, color) =>
        var changes := Changes(title, body, color, None, None, None);
        if HasContent(changes) {
          EditSharing(id, entry, changes, c);
        }
      case Patch(changes) => PatchSharing(id, entry, changes, c);
      case Unlock => UnlockSharing(entry, c);
      case Lock => LockSharing(id, entry, c);
      case Create(_, _, _, _) =>
      case Import(_, _, _, _, _) =>
      case Read =>
      case ListVersions =>
      case Delete =>
      case AgentCreate(_, _, _) =>
      case AgentGet =>
      case AgentFlags(_, _) =>
      case AgentDelete =>
    }
  }

  lemma UnlockSharing(entry: Entry, c: Call)
    ensures var o := UnlockStep(entry, c);
      o.entry.Some? && SameSharing(o.entry.value.note, entry.note)
  {
    hide Latest, SameContent;
  }

  lemma LockSharing(id: Id, entry: Entry, c: Call)
    ensures var o := LockStep(id, entry, c);
      o.entry.Some? && SameSharing(o.entry.value.note, entry.note)
  {
  }

  lemma PatchSharing(id: Id, entry: Entry, changes: Changes, c: Call)
    requires c.caller.id != entry.note.owner
    ensures var o := PatchStep(id, entry, changes, c);
      o.entry.Some? && SameSharing(o.entry.value.note, entry.note)
  {
  }

  /** Only the owner or an admin deletes, and nothing else does. */
  lemma OnlyOwnerOrAdminDeletes(id: Id, entry: Entry, c: Call)
    ensures Step(id, Some(entry), c).entry.None? <==>
            (c.request.Delete? || c.request.AgentDelete?) && (c.caller.id == entry.note.owner || c.caller.admin)
  {
    if c.request.AgentUpdate? {
      var changes := Changes(c.request.newTitle, c.request.newBody, c.request.newColor, None, None, None);
      if HasContent(changes) {
        EditResult(id, entry, changes, c);
      }
    }
  }

  /** Someone else's private note answers as if it were not there, and stays as it is. */
  lemma PrivateNotesAreOutOfReach(id: Id, entry: Entry, c: Call)
    requires entry.note.visibility == PRIVATE && c.caller.id != entry.note.owner && !c.caller.admin
    requires !IsCreation(c.request)
    ensures Step(id, Some(entry), c) == Outcome(Some(entry), NotFound, [])
    ensures Step(id, Some(entry), c).reply == Step(id, None, c).reply
  {
  }

  /** The modification date moves exactly with the content writes, to the time of the request. */
  lemma ModifiedMeansWritten(id: Id, entry: Entry, c: Call)
    requires !IsCreation(c.request)
    ensures var o := Step(id, Some(entry), c);
      o.entry.Some? ==>
        o.entry.value.note.updatedAt ==
          if Wrote(c.caller.id, c.now, entry.note.visibility) in o.events then c.now else entry.note.updatedAt
  {
    hide BorrowedEdit, Latest, Grantable, ConflictDetail, ViewOf;
    match c.request {
      case Restore(versionId) =>
        var version := FindVersion(entry.history, versionId);
        if version.Some? {
          EditWrites(id, entry, RestoredChanges(version.value, entry.note, c.caller.id), c);
        }
      case AgentUpdate(title, body, color) =>
        var changes := Changes(title, body, color, None, None, None);
        if HasContent(changes) {
          EditWrites(id, entry, changes, c);
        }
      case Patch(changes) =>
      case Read =>
      case Lock =>
      case Unlock =>
      case ListVersions =>
      case Delete =>
      case AgentGet =>
      case AgentFlags(_, _) =>
      case AgentDelete =>
    }
  }

  lemma EditWrites(id: Id, entry: Entry, changes: Changes, c: Call)
    requires HasContent(changes)
    ensures var o := BorrowedEdit(id, entry, changes, c);
      && o.entry.Some?
      && (o.reply.Shown? <==> Wrote(c.caller.id, c.now, entry.note.visibility) in o.events)
      && o.entry.value.note.updatedAt == if o.reply.Shown? then c.now else entry.note.updatedAt
  {
  }

  /** An accepted patch is read back: the reader sees what the writer was shown, the note with the patch applied. */
  lemma PatchIsReadBack(id: Id, entry: Entry, changes: Changes, c: Call, reader: Call)
    requires c.request == Patch(changes) && Step(id, Some(entry), c).reply.Shown?
    requires reader.request.Read? && reader.caller.id == c.caller.id
    ensures var shown := Step(id, Step(id, Some(entry), c).entry, reader).reply;
      shown == Step(id, Some(entry), c).reply == Shown(ViewOf(id, Applied(entry.note, changes, c.now)))
  {
  }

  /** The content of a version on a note that may belong to someone else: visibility stays then. */
  predicate ShowsVersion(note: Note, version: Version, before: Note, user: UserId) {
    && note.title == version.title && note.body == version.body && note.color == version.color
    && note.visibility == if before.owner == user then version.visibility else before.visibility
  }

  /** An accepted restore brings back the content of the version asked for and is itself versioned at once. */
  lemma RestoreBringsBack(id: Id, entry: Entry, c: Call)
    requires GoodHistory(entry) && DatedLater(entry, Step(id, Some(entry), c).entry, c.now)
    requires c.request.Restore? && Step(id, Some(entry), c).reply.Shown?
    ensures var after := Step(id, Some(entry), c).entry;
      && after.Some?
      && (exists version :: version in entry.history && version.id == c.request.versionId
            && ShowsVersion(after.value.note, version, entry.note, c.caller.id))
      && Synced(after.value) && entry.history <= after.value.history
  {
    FoundIsThere(entry.history, c.request.versionId);
    var version := FindVersion(entry.history, c.request.versionId).value;
    var changes := RestoredChanges(version, entry.note, c.caller.id);
    EditResult(id, entry, changes, c);
    EditIsVersioned(id, entry, changes, c);
    assert ShowsVersion(Step(id, Some(entry), c).entry.value.note, version, entry.note, c.caller.id);
  }

  /** An accepted agent edit changes what it names and is versioned at once. */
  lemma AgentEditIsVersioned(id: Id, entry: Entry, c: Call)
    requires GoodHistory(entry) && DatedLater(entry, Step(id, Some(entry), c).entry, c.now)
    requires c.request.AgentUpdate? && Step(id, Some(entry), c).reply.Shown?
    requires c.request.newTitle.Some? || c.request.newBody.Some? || c.request.newColor.Some?
    ensures var after := Step(id, Some(entry), c).entry;
      && after.Some?
      && after.value.note.title == Or(c.request.newTitle, entry.note.title)
      && after.value.note.body == Or(c.request.newBody, entry.note.body)
      && after.value.note.color == Or(c.request.newColor, entry.note.color)
      && SameSharing(after.value.note, entry.note)
      && Synced(after.value) && entry.history <= after.value.history
  {
    hide BorrowedEdit, GoodHistory, Latest, Synced;
    var changes := Changes(c.request.newTitle, c.request.newBody, c.request.newColor, None, None, None);
    EditResult(id, entry, changes, c);
    EditIsVersioned(id, entry, changes, c);
  }

  lemma EditIsVersioned(id: Id, entry: Entry, changes: Changes, c: Call)
    requires GoodHistory(entry) && HasContent(changes)
    requires DatedLater(entry, BorrowedEdit(id, entry, changes, c).entry, c.now)
    requires BorrowedEdit(id, entry, changes, c).reply.Shown?
    ensures var o := BorrowedEdit(id, entry, changes, c);
      o.entry.Some? && Synced(o.entry.value) && entry.history <= o.entry.value.history
  {
    var note, user, now := entry.note, c.caller.id, c.now;
    var held := if NeedsBorrowing(note, user, now) then Acquired(note, user, now) else note;
    RecordGood(Entry(Applied(held, changes, now), entry.history), user, c.freshId, now);
  }

  lemma {:induction false} FoundIsThere(history: seq<Version>, id: Id)
    ensures FindVersion(history, id).Some? <==> exists version :: version in history && version.id == id
    ensures FindVersion(history, id).Some? ==>
              FindVersion(history, id).value in history && FindVersion(history, id).value.id == id
  {
    if history != [] {
      FoundIsThere(history[1..], id);
      assert history == [history[0]] + history[1..];
    }
  }
}
