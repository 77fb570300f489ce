/** Every request by its effect and its answer, told by the fields of the row and of the request. */
module Replies {
  import opened Wrappers
  import opened Notes
  import opened Leases
  import opened Histories

  // ----- Words for the rows of the table -----

  predicate MayRead(note: Note, user: UserId) {
    note.owner == user || note.visibility == PUBLIC
  }

  /** The lock is held by `user` and its expiry has not passed. */
  predicate LockedBy(note: Note, user: UserId, now: Time) {
    note.lockedBy == Some(user) && note.expiresAt.Some? && now <= note.expiresAt.value
  }

  /** Somebody else stands in the way: a live lock, or one whose expiry was never set. */
  predicate TakenByOther(note: Note, user: UserId, now: Time) {
    note.lockedBy.Some? && note.lockedBy.value != user && (note.expiresAt.Some? ==> now <= note.expiresAt.value)
  }

  /** A field that the request may name. */
  predicate Follows<T(==)>(change: Option<T>, before: T, after: T) {
    if change.Some? then after == change.value else after == before
  }

  predicate Names<T(==)>(change: Option<T>, current: T) {
    change.Some? && change.value != current
  }

  predicate SameLock(a: Note, b: Note) {
    a.lockedBy == b.lockedBy && a.lockedAt == b.lockedAt && a.expiresAt == b.expiresAt
  }

  predicate SameBoard(a: Note, b: Note) {
    a.owner == b.owner && a.pinned == b.pinned && a.archived == b.archived && a.createdAt == b.createdAt
  }

  predicate SameText(a: Note, b: Note) {
    a.title == b.title && a.body == b.body && a.color == b.color && a.visibility == b.visibility
    && a.updatedAt == b.updatedAt
  }

  predicate TouchesContent(changes: Changes) {
    !(changes.title.None? && changes.body.None? && changes.color.None? && changes.visibility.None?)
  }

  // ----- What is shown of a note -----

  /** The note a view was taken of, given what the view leaves out. */
  function Unviewed(view: View, lockedAt: Option<Time>): Note {
    Note(view.title, view.body, view.color, view.visibility, view.owner, view.pinned, view.archived,
         view.createdAt, view.updatedAt, view.lockedBy, lockedAt, view.expiresAt)
  }

  /** A view leaves out only when the lock was taken. */
  lemma ViewsAreFaithful(id: Id, note: Note)
    ensures ViewOf(id, note).id == id && Unviewed(ViewOf(id, note), note.lockedAt) == note
  {
  }

  /** The agent sees the same but for the lock, and of that only a holder whose lock is live. */
  lemma PayloadsAreFaithful(id: Id, note: Note, now: Time)
    ensures var payload := PayloadOf(id, note, now);
      && payload.id == id
      && (forall user :: payload.lockedBy == Some(user) <==> LockedBy(note, user, now))
      && Unviewed(payload.(lockedBy := note.lockedBy, expiresAt := note.expiresAt), note.lockedAt) == note
  {
  }

  // ----- Patch -----

  /** The owner's fields that a patch by someone else would change. */
  predicate TouchesSharing(note: Note, changes: Changes) {
    Names(changes.visibility, note.visibility)
  }

  predicate TouchesBoard(note: Note, changes: Changes) {
    Names(changes.pinned, note.pinned) || Names(changes.archived, note.archived)
  }

  /** When a patch is accepted, and what each refusal means. */
  lemma PatchAnswers(id: Id, entry: Entry, changes: Changes, c: Call)
    requires c.request == Patch(changes)
    ensures var o, note, user, now := Step(id, Some(entry), c), entry.note, c.caller.id, c.now;
      && (o.reply.Shown? <==>
            && (note.owner == user ||
                (note.visibility == PUBLIC && !TouchesSharing(note, changes) && !TouchesBoard(note, changes)))
            && (note.visibility == PUBLIC && TouchesContent(changes) ==> LockedBy(note, user, now)))
      && (o.reply == NotFound <==> !MayRead(note, user))
      && (o.reply == Forbidden(VisibilityForbidden) <==>
            MayRead(note, user) && note.owner != user && TouchesSharing(note, changes))
      && (o.reply == Forbidden(OrganizeForbidden) <==>
            && MayRead(note, user) && note.owner != user
            && !TouchesSharing(note, changes) && TouchesBoard(note, changes))
      && (!o.reply.Shown? ==> o.entry == Some(entry))
      && (o.reply.Conflict? ==> ConflictTells(o.reply.conflict, note, now))
  {
  }

  /** A conflict names the live holder and the expiry, or says that a lock is needed. */
  ghost predicate ConflictTells(conflict: LockConflict, note: Note, now: Time) {
    match conflict
    case NoteLocked(holder, expiresAt) => LockedBy(note, holder, now) && expiresAt == note.expiresAt
    case LockRequired => forall holder :: !LockedBy(note, holder, now)
  }

  /** An accepted patch: the fields it names as asked, the others as they were, and no version yet. */
  lemma PatchTakesEffect(id: Id, entry: Entry, changes: Changes, c: Call)
    requires c.request == Patch(changes) && Step(id, Some(entry), c).reply.Shown?
    ensures var o := Step(id, Some(entry), c);
      && o.entry.Some?
      && o.entry.value.history == entry.history
      && var before, after := entry.note, o.entry.value.note;
      && Follows(changes.title, before.title, after.title)
      && Follows(changes.body, before.body, after.body)
      && Follows(changes.color, before.color, after.color)
      && Follows(changes.visibility, before.visibility, after.visibility)
      && Follows(changes.pinned, before.pinned, after.pinned)
      && Follows(changes.archived, before.archived, after.archived)
      && after.owner == before.owner && after.createdAt == before.createdAt && SameLock(before, after)
      && after.updatedAt == (if TouchesContent(changes) then c.now else before.updatedAt)
      && Unviewed(o.reply.view, after.lockedAt) == after
  {
  }

  // ----- Lock and unlock -----

  /** A lock request is refused exactly when someone else stands in the way, and then names the live holder. */
  lemma LockAnswers(id: Id, entry: Entry, c: Call)
    requires c.request.Lock?
    ensures var o, note, user, now := Step(id, Some(entry), c), entry.note, c.caller.id, c.now;
      && (o.reply.Shown? <==> MayRead(note, user) && !TakenByOther(note, user, now))
      && (o.reply == NotFound <==> !MayRead(note, user))
      && (o.reply.Conflict? ==> ConflictTells(o.reply.conflict, note, now))
      && (!o.reply.Shown? ==> o.entry == Some(entry))
      && (o.reply.Shown? ==>
            && o.entry.Some? && o.entry.value.history == entry.history
            && var after := o.entry.value.note;
            && after.lockedBy == Some(user) && after.expiresAt == Some(now + 60 * 1_000_000)
            && after.lockedAt == (if LockedBy(note, user, now) then note.lockedAt else Some(now))
            && SameText(note, after) && SameBoard(note, after)
            && Unviewed(o.reply.view, after.lockedAt) == after)
  {
  }

  /** The versions after a close by `user`: one more, showing the note, unless the newest shows it already. */
  predicate ClosedBy(before: Entry, after: Entry, user: UserId, id: Id, now: Time) {
    if ShowsNote(before.history, before.note) then after.history == before.history
    else
      && |after.history| == |before.history| + 1 && before.history <= after.history
      && AppendedBy(after, user, id, now)
  }

  /** The version with the latest date, the first of several, shows the note. */
  predicate ShowsNote(history: seq<Version>, note: Note) {
    exists k :: 0 <= k < |history| && IsNewest(history, k) && Pictures(history[k], note)
  }

  predicate Pictures(version: Version, note: Note) {
    version.title == note.title && version.body == note.body
    && version.color == note.color && version.visibility == note.visibility
  }

  predicate IsNewest(history: seq<Version>, k: nat)
    requires k < |history|
  {
    forall i :: 0 <= i < |history| ==>
      history[i].createdAt < history[k].createdAt || (history[i].createdAt == history[k].createdAt && k <= i)
  }

  lemma {:induction false} LatestIsNewest(history: seq<Version>)
    ensures Latest(history).None? <==> history == []
    ensures history != [] ==> exists k :: 0 <= k < |history| && IsNewest(history, k) && Latest(history) == Some(history[k])
  {
    if history != [] {
      var rest := history[1..];
      LatestIsNewest(rest);
      if rest != [] {
        var k :| 0 <= k < |rest| && IsNewest(rest, k) && Latest(rest) == Some(rest[k]);
        assert forall i :: 0 <= i < |rest| ==> rest[i] == history[i + 1];
        if rest[k].createdAt > history[0].createdAt {
          assert IsNewest(history, k + 1);
        } else {
          assert IsNewest(history, 0);
        }
      } else {
        assert IsNewest(history, 0);
      }
    }
  }

  lemma NewestIsOne(history: seq<Version>, j: nat, k: nat)
    requires j < |history| && k < |history| && IsNewest(history, j) && IsNewest(history, k)
    ensures j == k
  {
    var a, b := history[j], history[k];
    assert a.createdAt == b.createdAt;
  }

  lemma ShownByLatest(history: seq<Version>, note: Note)
    ensures ShowsNote(history, note) <==> Latest(history).Some? && SameContent(Latest(history).value, note)
  {
    LatestIsNewest(history);
    if history != [] {
      var k :| 0 <= k < |history| && IsNewest(history, k) && Latest(history) == Some(history[k]);
      if j :| 0 <= j < |history| && IsNewest(history, j) && Pictures(history[j], note) {
        NewestIsOne(history, j, k);
      }
    }
  }

  /** Closing: the caller's own lock goes, nobody else's; a version is kept of a held or a private note only. */
  lemma UnlockAnswers(id: Id, entry: Entry, c: Call)
    requires c.request.Unlock?
    ensures var o, note, user := Step(id, Some(entry), c), entry.note, c.caller.id;
      && (o.reply == NotFound <==> !MayRead(note, user))
      && (o.reply == Done <==> MayRead(note, user))
      && o.entry.Some?
      && var after := o.entry.value.note;
      && SameText(note, after) && SameBoard(note, after)
      && (if MayRead(note, user) && note.lockedBy == Some(user)
          then after.lockedBy.None? && after.lockedAt.None? && after.expiresAt.None?
          else SameLock(note, after))
      && (if MayRead(note, user) && (note.lockedBy == Some(user) || note.visibility == PRIVATE)
          then ClosedBy(entry, o.entry.value, user, c.freshId, c.now)
          else o.entry.value.history == entry.history)
  {
    hide Latest;
    ShownByLatest(entry.history, entry.note);
  }

  // ----- Restore and agent edit -----

  /** A guarded edit is refused exactly when the note is public and someone else stands in the way. */
  lemma EditAnswers(id: Id, entry: Entry, changes: Changes, c: Call)
    requires HasContent(changes)
    ensures var o, note, user, now := BorrowedEdit(id, entry, changes, c), entry.note, c.caller.id, c.now;
      && (o.reply.Shown? <==> !(note.visibility == PUBLIC && TakenByOther(note, user, now)))
      && (!o.reply.Shown? ==>
            o.entry == Some(entry) && o.reply.Conflict? && ConflictTells(o.reply.conflict, note, now))
      && (o.reply.Shown? ==> o.entry.Some? && EditedBy(entry, o.entry.value, changes, user, c.freshId, now))
  {
    hide EditedBy, RecordSession, Applied;
    if BorrowedEdit(id, entry, changes, c).reply.Shown? {
      EditTakesEffect(id, entry, changes, c);
    }
  }

  lemma EditTakesEffect(id: Id, entry: Entry, changes: Changes, c: Call)
    requires HasContent(changes) && BorrowedEdit(id, entry, changes, c).reply.Shown?
    ensures var o := BorrowedEdit(id, entry, changes, c);
      o.entry.Some? && EditedBy(entry, o.entry.value, changes, c.caller.id, c.freshId, c.now)
  {
    hide Latest, ShowsNote;
    var held := if NeedsBorrowing(entry.note, c.caller.id, c.now) then Acquired(entry.note, c.caller.id, c.now) else entry.note;
    ShownByLatest(entry.history, Applied(held, changes, c.now));
    ShowsSame(entry.history, Applied(held, changes, c.now), BorrowedEdit(id, entry, changes, c).entry.value.note);
  }

  lemma ShowsSame(history: seq<Version>, a: Note, b: Note)
    requires a.title == b.title && a.body == b.body && a.color == b.color && a.visibility == b.visibility
    ensures ShowsNote(history, a) <==> ShowsNote(history, b)
  {
    assert forall version :: Pictures(version, a) <==> Pictures(version, b);
  }

  /** The fields named as asked, the rest as it was, a borrowed lock given back, the result versioned. */
  predicate EditedBy(before: Entry, after: Entry, changes: Changes, user: UserId, id: Id, now: Time) {
    && Follows(changes.title, before.note.title, after.note.title)
    && Follows(changes.body, before.note.body, after.note.body)
    && Follows(changes.color, before.note.color, after.note.color)
    && Follows(changes.visibility, before.note.visibility, after.note.visibility)
    && Follows(changes.pinned, before.note.pinned, after.note.pinned)
    && Follows(changes.archived, before.note.archived, after.note.archived)
    && after.note.owner == before.note.owner && after.note.createdAt == before.note.createdAt
    && after.note.updatedAt == now
    && (if before.note.visibility == PUBLIC && !LockedBy(before.note, user, now)
        then after.note.lockedBy.None? && after.note.lockedAt.None? && after.note.expiresAt.None?
        else SameLock(before.note, after.note))
    && (if ShowsNote(before.history, after.note) then after.history == before.history
        else |after.history| == |before.history| + 1 && before.history <= after.history
             && AppendedBy(after, user, id, now))
  }

  /** The first version with the id asked for. */
  predicate IsAsked(history: seq<Version>, k: nat, id: Id) {
    k < |history| && history[k].id == id && forall i :: 0 <= i < k ==> history[i].id != id
  }

  lemma {:induction false} FindsTheVersion(history: seq<Version>, id: Id)
    ensures FindVersion(history, id).None? <==> forall version :: version in history ==> version.id != id
    ensures FindVersion(history, id).Some? ==>
              && FindVersion(history, id).value.id == id
              && exists k: nat :: IsAsked(history, k, id) && FindVersion(history, id).value == history[k]
  {
    if history != [] {
      var rest := history[1..];
      FindsTheVersion(rest, id);
      assert history == [history[0]] + rest;
      if history[0].id == id {
        assert IsAsked(history, 0, id);
      } else if FindVersion(rest, id).Some? {
        var k: nat :| IsAsked(rest, k, id) && FindVersion(rest, id).value == rest[k];
        assert IsAsked(history, k + 1, id);
      }
    }
  }

  /**
   * A restore is refused for a version the note does not have, and while someone else holds a public note;
   * otherwise the note shows the content of the version with that id, its visibility if the caller owns it.
   */
  lemma RestoreAnswers(id: Id, entry: Entry, c: Call)
    requires c.request.Restore?
    ensures var o, note, user, now := Step(id, Some(entry), c), entry.note, c.caller.id, c.now;
      var asked := c.request.versionId;
      && (o.reply == NotFound <==> !MayRead(note, user))
      && (o.reply == VersionNotFound <==>
            MayRead(note, user) && forall version :: version in entry.history ==> version.id != asked)
      && (o.reply.Shown? <==>
            && MayRead(note, user) && (exists version :: version in entry.history && version.id == asked)
            && !(note.visibility == PUBLIC && TakenByOther(note, user, now)))
      && (o.reply.Conflict? ==> ConflictTells(o.reply.conflict, note, now))
      && (!o.reply.Shown? ==> o.entry == Some(entry))
      && (o.reply.Shown? ==>
            && o.entry.Some?
            && exists k: nat :: IsAsked(entry.history, k, asked) && BroughtBack(entry, o.entry.value, entry.history[k], c))
  {
    hide BorrowedEdit, FindVersion;
    FindsTheVersion(entry.history, c.request.versionId);
    var found := FindVersion(entry.history, c.request.versionId);
    if found.Some? {
      EditAnswers(id, entry, RestoredChanges(found.value, entry.note, c.caller.id), c);
    }
  }

  predicate BroughtBack(before: Entry, after: Entry, version: Version, c: Call) {
    var visibility := if before.note.owner == c.caller.id then Some(version.visibility) else None;
    EditedBy(before, after,
             Changes(Some(version.title), Some(version.body), Some(version.color), visibility, None, None),
             c.caller.id, c.freshId, c.now)
  }

  /** An agent edit without changes only reads; otherwise it yields to a live editor of a public note. */
  lemma AgentUpdateAnswers(id: Id, entry: Entry, c: Call)
    requires c.request.AgentUpdate?
    ensures var o, note, user, now := Step(id, Some(entry), c), entry.note, c.caller.id, c.now;
      var r := c.request;
      var empty := r.newTitle.None? && r.newBody.None? && r.newColor.None?;
      && (o.reply == NotFound <==> !MayRead(note, user))
      && (o.reply.Shown? <==>
            MayRead(note, user) && (empty || !(note.visibility == PUBLIC && TakenByOther(note, user, now))))
      && (o.reply.Conflict? ==>
            note.lockedBy.Some? && o.reply.conflict == NoteLocked(note.lockedBy.value, None))
      && o.entry.Some?
      && (empty || !o.reply.Shown? ==> o.entry == Some(entry))
      && (!empty && o.reply.Shown? ==>
            EditedBy(entry, o.entry.value, Changes(r.newTitle, r.newBody, r.newColor, None, None, None), user, c.freshId, now))
      && (o.reply.Shown? ==> o.reply.view == PayloadOf(id, o.entry.value.note, now))
  {
    hide BorrowedEdit;
    var changes := Changes(c.request.newTitle, c.request.newBody, c.request.newColor, None, None, None);
    if HasContent(changes) {
      EditAnswers(id, entry, changes, c);
    }
  }

  // ----- Flags, deletion, creation, reading -----

  /** The agent's flags are the owner's; nothing else of the row moves. */
  lemma FlagsAnswers(id: Id, entry: Entry, c: Call)
    requires c.request.AgentFlags?
    ensures var o, note, user := Step(id, Some(entry), c), entry.note, c.caller.id;
      && (o.reply.Shown? <==> note.owner == user)
      && (o.reply == NotFound <==> !MayRead(note, user))
      && (!o.reply.Shown? ==> o.entry == Some(entry) && (o.reply == NotFound || o.reply == Forbidden(OrganizeForbidden)))
      && (o.reply.Shown? ==>
            && o.entry.Some? && o.entry.value.history == entry.history
            && var after := o.entry.value.note;
            && Follows(c.request.pinned, note.pinned, after.pinned)
            && Follows(c.request.archived, note.archived, after.archived)
            && SameText(note, after) && SameLock(note, after)
            && after.owner == note.owner && after.createdAt == note.createdAt
            && o.reply.view == PayloadOf(id, after, c.now))
  {
  }

  /** Deletion is the owner's or an admin's; a private note of others is not even admitted to exist. */
  lemma DeleteAnswers(id: Id, entry: Entry, c: Call)
    requires c.request.Delete? || c.request.AgentDelete?
    ensures var o, note := Step(id, Some(entry), c), entry.note;
      var may := note.owner == c.caller.id || c.caller.admin;
      && (o.reply == Done <==> may)
      && (o.reply == Forbidden(DeleteForbidden) <==> !may && note.visibility == PUBLIC)
      && (o.reply == NotFound <==> !may && note.visibility == PRIVATE)
      && o.entry == (if may then None else Some(entry))
  {
  }

  /** What a created note starts as: its root version shows it, by its owner, at its creation date. */
  predicate Starts(entry: Entry, owner: UserId, createdAt: Time, updatedAt: Time, rootId: Id) {
    && entry.note.owner == owner && entry.note.createdAt == createdAt && entry.note.updatedAt == updatedAt
    && !entry.note.pinned && !entry.note.archived
    && entry.note.lockedBy.None? && entry.note.lockedAt.None? && entry.note.expiresAt.None?
    && |entry.history| == 1 && AppendedBy(entry, owner, rootId, createdAt)
  }

  lemma CreateAnswers(id: Id, c: Call)
    requires IsCreation(c.request)
    ensures var o := Step(id, None, c);
      && o.entry.Some? && o.reply.Shown?
      && var note := o.entry.value.note;
      && (match c.request
          case Create(title, body, color, visibility) =>
            && note.title == title && note.body == body && note.color == color && note.visibility == visibility
            && Starts(o.entry.value, c.caller.id, c.now, c.now, c.freshId)
            && Unviewed(o.reply.view, None) == note
          case Import(title, body, color, createdAt, updatedAt) =>
            && note.title == title && note.body == body && note.color == color && note.visibility == PRIVATE
            && Starts(o.entry.value, c.caller.id, createdAt, updatedAt, c.freshId)
          case AgentCreate(title, body, color) =>
            && note.title == title && note.body == body && note.color == color && note.visibility == PUBLIC
            && Starts(o.entry.value, c.caller.id, c.now, c.now, c.freshId)
            && o.reply.view == PayloadOf(id, note, c.now))
  {
  }

  /** Reading changes nothing; the note is shown, or its history, to those who may read it. */
  lemma ReadAnswers(id: Id, entry: Entry, c: Call)
    requires c.request.Read? || c.request.AgentGet? || c.request.ListVersions?
    ensures var o, note, user := Step(id, Some(entry), c), entry.note, c.caller.id;
      && o.entry == Some(entry)
      && (o.reply == NotFound <==> !MayRead(note, user))
      && (MayRead(note, user) && c.request.Read? ==>
            o.reply.Shown? && o.reply.view.id == id && Unviewed(o.reply.view, note.lockedAt) == note)
      && (MayRead(note, user) && c.request.AgentGet? ==> o.reply == Shown(PayloadOf(id, note, c.now)))
      && (MayRead(note, user) && c.request.ListVersions? ==>
            o.reply.History? && multiset(o.reply.versions) == multiset(entry.history))
  {
    NewestFirstKeeps(entry.history);
  }

  lemma {:induction false} InsertKeeps(version: Version, sorted: seq<Version>)
    ensures multiset(InsertByDate(version, sorted)) == multiset(sorted) + multiset{version}
  {
    if sorted != [] && version.createdAt < sorted[0].createdAt {
      var rest := sorted[1..];
      InsertKeeps(version, rest);
      assert sorted == [sorted[0]] + rest;
      assert multiset([sorted[0]] + InsertByDate(version, rest)) ==
             multiset{sorted[0]} + multiset(InsertByDate(version, rest));
    }
  }

  lemma {:induction false} NewestFirstKeeps(history: seq<Version>)
    ensures multiset(NewestFirst(history)) == multiset(history)
  {
    if history != [] {
      var n := |history| - 1;
      var init, last := history[..n], history[n];
      NewestFirstKeeps(init);
      hide InsertByDate;
      InsertKeeps(last, NewestFirst(init));
      assert history == init + [last];
    }
  }
}
