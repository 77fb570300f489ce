/** The requests as they update the two tables in place. */
module NoteService {
  import opened Wrappers
  import opened Notes
  import opened Stores
  import Boards
  import Histories

  class Service {
    /** The note table, and the version table grouped by note. */
    var rows: map<Id, Note>
    var versions: map<Id, seq<Version>>

    /** Versions belong to notes. */
    ghost predicate Valid()
      reads this
    {
      rows.Keys == versions.Keys
    }

    ghost function State(): Store
      requires Valid()
      reads this
    {
      map id | id in rows :: Entry(rows[id], versions[id])
    }

    constructor ()
      ensures Valid() && State() == map[]
    {
      rows, versions := map[], map[];
    }

    method SetRow(id: Id, note: Note)
      requires Valid() && id in rows
      modifies `rows
      ensures Valid() && rows == old(rows)[id := note]
      ensures State() == old(State())[id := Entry(note, versions[id])]
    {
      rows := rows[id := note];
    }

    /** The conditional UPDATE: whether the caller won. */
    method Acquire(id: Id, user: UserId, now: Time) returns (won: bool)
      requires Valid() && id in rows
      modifies `rows
      ensures Valid() && won == Grantable(old(rows)[id], user, now)
      ensures rows == if won then old(rows)[id := Acquired(old(rows)[id], user, now)] else old(rows)
      ensures State() == old(State())[id := Entry(rows[id], versions[id])]
    {
      var note := rows[id];
      won := note.lockedBy.None? || (note.expiresAt.Some? && note.expiresAt.value < now) || note.lockedBy == Some(user);
      if won {
        var renewing := note.lockedBy == Some(user) && note.expiresAt.Some? && note.expiresAt.value >= now;
        rows := rows[id := note.(lockedBy := Some(user),
                                 lockedAt := if renewing then note.lockedAt else Some(now),
                                 expiresAt := Some(now + LOCK_TTL))];
      }
    }

    method Release(id: Id, user: UserId) returns (released: bool)
      requires Valid() && id in rows
      modifies `rows
      ensures Valid() && released == (old(rows)[id].lockedBy == Some(user))
      ensures rows == if released then old(rows)[id := Unlocked(old(rows)[id])] else old(rows)
      ensures State() == old(State())[id := Entry(rows[id], versions[id])]
    {
      released := rows[id].lockedBy == Some(user);
      if released {
        rows := rows[id := rows[id].(lockedBy := None, lockedAt := None, expiresAt := None)];
      }
    }

    method LatestVersion(id: Id) returns (latest: Option<Version>)
      requires Valid() && id in rows
      ensures latest == Latest(versions[id])
    {
      var history := versions[id];
      latest := None;
      var i := |history|;
      while i > 0
        invariant 0 <= i <= |history|
        invariant latest == Latest(history[i..])
      {
        i := i - 1;
        assert history[i..][1..] == history[i + 1..];
        if latest.None? || latest.value.createdAt <= history[i].createdAt {
          latest := Some(history[i]);
        }
      }
    }

    method RecordSessionVersion(id: Id, author: UserId, freshId: Id, now: Time)
      requires Valid() && id in rows
      modifies `versions
      ensures Valid()
      ensures State() == old(State())[id := RecordSession(Entry(rows[id], old(versions)[id]), author, freshId, now)]
    {
      var latest := LatestVersion(id);
      var note := rows[id];
      if latest.Some? && latest.value.title == note.title && latest.value.body == note.body
         && latest.value.color == note.color && latest.value.visibility == note.visibility {
        assert versions == versions[id := versions[id]];
        return;
      }
      versions := versions[id := versions[id] + [Snapshot(note, author, freshId, now)]];
    }

    /** `_get_readable_note`: the caller's own note or a public one, else as if it did not exist. */
    method GetReadableNote(id: Id, user: UserId) returns (note: Option<Note>)
      requires Valid()
      ensures note.Some? <==> id in rows && Readable(rows[id], user)
      ensures note.Some? ==> note.value == rows[id]
    {
      if id !in rows || (rows[id].visibility != PUBLIC && rows[id].owner != user) {
        return None;
      }
      return Some(rows[id]);
    }

    /** `list_notes`: the notes of a board, pinned first, then newest first. */
    method ListNotes(user: UserId, board: Board) returns (list: seq<View>)
      requires Valid()
      ensures IsListing(State(), user, board, list)
    {
      list := [];
      var ids := rows.Keys;
      while ids != {}
        invariant ids <= rows.Keys
        invariant Sorted(list) && DistinctIds(list)
        invariant forall view :: view in list ==>
                    && view.id in rows && view.id !in ids
                    && OnBoard(rows[view.id], user, board) && view == ViewOf(view.id, rows[view.id])
        invariant forall id :: id in rows && id !in ids && OnBoard(rows[id], user, board) ==> ViewOf(id, rows[id]) in list
        decreases ids
      {
        var id :| id in ids;
        ids := ids - {id};
        if OnBoard(rows[id], user, board) {
          Boards.InsertSorted(ViewOf(id, rows[id]), list);
          Boards.InsertElements(ViewOf(id, rows[id]), list);
          Boards.InsertDistinctIds(ViewOf(id, rows[id]), list);
          list := Boards.InsertView(ViewOf(id, rows[id]), list);
        }
      }
    }

    /** `list_note_versions`: the history, newest first. */
    method ListNoteVersions(id: Id, c: Call) returns (reply: Reply)
      requires Valid() && c.request.ListVersions?
      ensures reply == ReplyOf(State(), Target(id, c))
      ensures reply.History? && Histories.Increasing(versions[id]) ==> reply.versions == Histories.Reversed(versions[id])
    {
      var found := GetReadableNote(id, c.caller.id);
      if found.None? {
        return NotFound;
      }
      if Histories.Increasing(versions[id]) {
        Histories.NewestFirstReverses(versions[id]);
      }
      reply := History(NewestFirst(versions[id]));
    }

    method Insert(id: Id, note: Note, freshId: Id)
      requires Valid() && id !in rows
      modifies this
      ensures Valid() && State() == old(State())[id := NewEntry(note, freshId)]
    {
      rows := rows[id := note];
      versions := versions[id := [Snapshot(note, note.owner, freshId, note.createdAt)]];
    }

    method CreateNote(id: Id, c: Call) returns (reply: Reply)
      requires Valid() && c.request.Create? && id !in rows
      modifies this
      ensures Valid() && State() == StepAll(old(State()), Target(id, c))
      ensures reply == ReplyOf(old(State()), Target(id, c))
    {
      var r := c.request;
      var note := Note(r.title, r.body, r.color, r.visibility, c.caller.id, false, false, c.now, c.now, None, None, None);
      Insert(id, note, c.freshId);
      reply := Shown(ViewOf(id, note));
    }

    /** Owner-only fields, in the order they are checked. */
    method CheckOwnerFields(note: Note, changes: Changes, user: UserId) returns (refused: Option<Refusal>)
      ensures refused == Refused(note, changes, user)
    {
      if changes.visibility.Some? && changes.visibility.value != note.visibility && note.owner != user {
        return Some(VisibilityForbidden);
      }
      if changes.pinned.Some? && changes.pinned.value != note.pinned && note.owner != user {
        return Some(OrganizeForbidden);
      }
      if changes.archived.Some? && changes.archived.value != note.archived && note.owner != user {
        return Some(OrganizeForbidden);
      }
      return None;
    }

    method PatchNote(id: Id, c: Call) returns (reply: Reply)
      requires Valid() && c.request.Patch?
      modifies `rows
      ensures Valid() && State() == StepAll(old(State()), Target(id, c))
      ensures reply == ReplyOf(old(State()), Target(id, c))
    {
      hide Step, Refused, ViewOf, ConflictDetail, HoldsValidLock, Readable;
      Dispatch(id, Get(State(), id), c);
      var user, changes := c.caller.id, c.request.changes;
      var found := GetReadableNote(id, user);
      if found.None? {
        Unchanged(State(), id);
        return NotFound;
      }
      var note := found.value;
      Unchanged(State(), id);
      var refused := CheckOwnerFields(note, changes, user);
      if refused.Some? {
        return Forbidden(refused.value);
      }
      var content := changes.title.Some? || changes.body.Some? || changes.color.Some? || changes.visibility.Some?;
      if content && note.visibility == PUBLIC && !HoldsValidLock(note, user, c.now) {
        return Conflict(ConflictDetail(note, c.now));
      }
      note := note.(title := Or(changes.title, note.title), body := Or(changes.body, note.body),
                    color := Or(changes.color, note.color), visibility := Or(changes.visibility, note.visibility),
                    pinned := Or(changes.pinned, note.pinned), archived := Or(changes.archived, note.archived));
      if content {
        note := note.(updatedAt := c.now);
      }
      assert note == Applied(found.value, changes, c.now);
      SetRow(id, note);
      reply := Shown(ViewOf(id, note));
    }

    method LockNote(id: Id, c: Call) returns (reply: Reply)
      requires Valid() && c.request.Lock?
      modifies `rows
      ensures Valid() && State() == StepAll(old(State()), Target(id, c))
      ensures reply == ReplyOf(old(State()), Target(id, c))
    {
      Unchanged(State(), id);
      var found := GetReadableNote(id, c.caller.id);
      if found.None? {
        return NotFound;
      }
      var won := Acquire(id, c.caller.id, c.now);
      if !won {
        return Conflict(ConflictDetail(rows[id], c.now));
      }
      reply := Shown(ViewOf(id, rows[id]));
    }

    method UnlockNote(id: Id, c: Call) returns (reply: Reply)
      requires Valid() && c.request.Unlock?
      modifies this
      ensures Valid() && State() == StepAll(old(State()), Target(id, c))
      ensures reply == ReplyOf(old(State()), Target(id, c))
    {
      hide Step, RecordSession, Readable, Unlocked, ReadableStep;
      Dispatch(id, Get(State(), id), c);
      UnlockDispatch(id, Get(State(), id), c);
      Unchanged(State(), id);
      var found := GetReadableNote(id, c.caller.id);
      if found.None? {
        return NotFound;
      }
      var released := Release(id, c.caller.id);
      if released || found.value.visibility != PUBLIC {
        RecordSessionVersion(id, c.caller.id, c.freshId, c.now);
      }
      reply := Done;
    }

    /** The edit itself, and its version. */
    method Write(id: Id, changes: Changes, c: Call)
      requires Valid() && id in rows
      modifies this
      ensures Valid() && id in rows
      ensures var written := Entry(Applied(old(rows)[id], changes, c.now), old(versions)[id]);
        State() == old(State())[id := RecordSession(written, c.caller.id, c.freshId, c.now)]
      ensures rows[id] == Applied(old(rows)[id], changes, c.now)
    {
      SetRow(id, Applied(rows[id], changes, c.now));
      RecordSessionVersion(id, c.caller.id, c.freshId, c.now);
      assert rows[id] == State()[id].note;
    }

    /** The guarded part of a restore and of an agent edit: borrow, write, version, give back. */
    method Edit(id: Id, changes: Changes, c: Call) returns (reply: Reply)
      requires Valid() && id in rows && HasContent(changes)
      modifies this
      ensures Valid()
      ensures var o := BorrowedEdit(id, Entry(old(rows)[id], old(versions)[id]), changes, c);
        reply == o.reply && o.entry.Some? && State() == old(State())[id := o.entry.value]
      ensures id in rows && (!reply.Shown? ==> rows == old(rows))
    {
      hide BorrowedEdit, RecordSession, Applied, Acquired, Unlocked, Grantable, ViewOf, ConflictDetail;
      var user, note := c.caller.id, rows[id];
      EditCases(id, Entry(note, versions[id]), changes, c);
      if note.visibility == PUBLIC && !HoldsValidLock(note, user, c.now) {
        var won := Acquire(id, user, c.now);
        if !won {
          return Conflict(ConflictDetail(rows[id], c.now));
        }
        Write(id, changes, c);
        assert State()[id] == Entry(rows[id], versions[id]);
        var released := Release(id, user);
      } else {
        Write(id, changes, c);
        assert State()[id] == Entry(rows[id], versions[id]);
      }
      reply := Shown(ViewOf(id, rows[id]));
    }

    method RestoreVersion(id: Id, c: Call) returns (reply: Reply)
      requires Valid() && c.request.Restore?
      modifies this
      ensures Valid() && State() == StepAll(old(State()), Target(id, c))
      ensures reply == ReplyOf(old(State()), Target(id, c))
    {
      Unchanged(State(), id);
      var found := GetReadableNote(id, c.caller.id);
      if found.None? {
        return NotFound;
      }
      var version := FindVersion(versions[id], c.request.versionId);
      if version.None? {
        return VersionNotFound;
      }
      reply := Edit(id, RestoredChanges(version.value, found.value, c.caller.id), c);
    }

    /** The agent's `update_note`. */
    method UpdateNote(id: Id, c: Call) returns (reply: Reply)
      requires Valid() && c.request.AgentUpdate?
      modifies this
      ensures Valid() && State() == StepAll(old(State()), Target(id, c))
      ensures reply == ReplyOf(old(State()), Target(id, c))
    {
      Unchanged(State(), id);
      var found := GetReadableNote(id, c.caller.id);
      if found.None? {
        return NotFound;
      }
      var changes := Changes(c.request.newTitle, c.request.newBody, c.request.newColor, None, None, None);
      if !HasContent(changes) {
        return Shown(PayloadOf(id, found.value, c.now));
      }
      reply := Edit(id, changes, c);
      assert rows[id] == State()[id].note;
      if reply.Shown? {
        reply := Shown(PayloadOf(id, rows[id], c.now));
      } else {
        reply := Conflict(NoteLocked(Or(rows[id].lockedBy, "Someone"), None));
      }
    }

    /** The agent's `set_flags`: pin and archive are the owner's. */
    method SetFlags(id: Id, c: Call) returns (reply: Reply)
      requires Valid() && c.request.AgentFlags?
      modifies `rows
      ensures Valid() && State() == StepAll(old(State()), Target(id, c))
      ensures reply == ReplyOf(old(State()), Target(id, c))
    {
      hide Step, ViewOf, Readable;
      Dispatch(id, Get(State(), id), c);
      Unchanged(State(), id);
      var found := GetReadableNote(id, c.caller.id);
      if found.None? {
        return NotFound;
      }
      var note := found.value;
      if note.owner != c.caller.id {
        return Forbidden(OrganizeForbidden);
      }
      if c.request.pinned.Some? {
        note := note.(pinned := c.request.pinned.value);
      }
      if c.request.archived.Some? {
        note := note.(archived := c.request.archived.value);
      }
      SetRow(id, note);
      reply := Shown(PayloadOf(id, note, c.now));
    }

    method DeleteNote(id: Id, c: Call) returns (reply: Reply)
      requires Valid() && (c.request.Delete? || c.request.AgentDelete?)
      modifies this
      ensures Valid() && State() == StepAll(old(State()), Target(id, c))
      ensures reply == ReplyOf(old(State()), Target(id, c))
    {
      Unchanged(State(), id);
      if id !in rows {
        return NotFound;
      }
      if rows[id].owner != c.caller.id && !c.caller.admin {
        if rows[id].visibility == PUBLIC {
          return Forbidden(DeleteForbidden);
        }
        return NotFound;
      }
      versions := versions - {id};
      rows := rows - {id};
      reply := Done;
    }
  }

  /** Requests that are neither creations nor deletions first look for a readable note. */
  lemma Dispatch(id: Id, entry: Option<Entry>, c: Call)
    requires !IsCreation(c.request) && !c.request.Delete? && !c.request.AgentDelete?
    ensures Step(id, entry, c) ==
            if entry.Some? && Readable(entry.value.note, c.caller.id) then ReadableStep(id, entry.value, c)
            else Outcome(entry, NotFound, [])
  {
  }

  lemma UnlockDispatch(id: Id, entry: Option<Entry>, c: Call)
    requires c.request.Unlock?
    ensures entry.Some? ==> ReadableStep(id, entry.value, c) == UnlockStep(entry.value, c)
  {
  }

  /** The three ways of a guarded edit, field by field. */
  lemma EditCases(id: Id, entry: Entry, changes: Changes, c: Call)
    requires HasContent(changes)
    ensures var o, user, now, note := BorrowedEdit(id, entry, changes, c), c.caller.id, c.now, entry.note;
      var held := if NeedsBorrowing(note, user, now) then Acquired(note, user, now) else note;
      var written := Applied(held, changes, now);
      var recorded := RecordSession(Entry(written, entry.history), user, c.freshId, now);
      && recorded.note == written
      && (NeedsBorrowing(note, user, now) ==> written.lockedBy == Some(user))
      && (if NeedsBorrowing(note, user, now) && !Grantable(note, user, now) then
            o.entry == Some(entry) && o.reply == Conflict(ConflictDetail(note, now))
          else
            var done := if NeedsBorrowing(note, user, now) then Unlocked(written) else written;
            o.entry == Some(Entry(done, recorded.history)) && o.reply == Shown(ViewOf(id, done)))
  {
  }

  /** Writing back what is there changes nothing. */
  lemma Unchanged(store: Store, id: Id)
    ensures Put(store, id, Get(store, id)) == store
  {
  }
}
