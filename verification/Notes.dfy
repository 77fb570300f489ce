/**
 * One note of the store: its row, its history, and what each request does to it.
 * api/app/services/locks.py, versions.py, agent.py and api/app/routers/notes.py.
 */
module Notes {
  import opened Wrappers

  type Id = string
  type UserId = string

  /** Microseconds. */
  type Time = int

  const HEARTBEAT: Time := 20 * 1_000_000
  const LOCK_TTL: Time := 60 * 1_000_000

  datatype Color = GOLD | AVOCAT | SALSA | CLAY | TEAL

  datatype Visibility = PRIVATE | PUBLIC

  datatype Note = Note(
    title: string, body: string, color: Color, visibility: Visibility, owner: UserId,
    pinned: bool, archived: bool, createdAt: Time, updatedAt: Time,
    lockedBy: Option<UserId>, lockedAt: Option<Time>, expiresAt: Option<Time>)

  datatype Version = Version(
    id: Id, author: UserId, title: string, body: string, color: Color, visibility: Visibility, createdAt: Time)

  /** A row and its versions, in the order they were appended. */
  datatype Entry = Entry(note: Note, history: seq<Version>)

  // ----- locks.py -----

  predicate IsStale(expiresAt: Option<Time>, now: Time) {
    expiresAt.None? || expiresAt.value < now
  }

  predicate HoldsValidLock(note: Note, user: UserId, now: Time) {
    note.lockedBy == Some(user) && !IsStale(note.expiresAt, now)
  }

  /** The condition of the conditional UPDATE; a NULL expiry is not smaller than anything. */
  predicate Grantable(note: Note, user: UserId, now: Time) {
    || note.lockedBy.None?
    || (note.expiresAt.Some? && note.expiresAt.value < now)
    || note.lockedBy == Some(user)
  }

  predicate Renewing(note: Note, user: UserId, now: Time) {
    note.lockedBy == Some(user) && note.expiresAt.Some? && note.expiresAt.value >= now
  }

  function Acquired(note: Note, user: UserId, now: Time): Note {
    note.(lockedBy := Some(user),
          lockedAt := if Renewing(note, user, now) then note.lockedAt else Some(now),
          expiresAt := Some(now + LOCK_TTL))
  }

  function Unlocked(note: Note): Note {
    note.(lockedBy := None, lockedAt := None, expiresAt := None)
  }

  // ----- versions.py -----

  /** The newest version by date; the earliest appended of several with the same date. */
  function Latest(history: seq<Version>): Option<Version> {
    if history == [] then None
    else
      var rest := Latest(history[1..]);
      if rest.Some? && rest.value.createdAt > history[0].createdAt then rest else Some(history[0])
  }

  predicate SameContent(version: Version, note: Note) {
    && version.title == note.title && version.body == note.body
    && version.color == note.color && version.visibility == note.visibility
  }

  function Snapshot(note: Note, author: UserId, id: Id, createdAt: Time): Version {
    Version(id, author, note.title, note.body, note.color, note.visibility, createdAt)
  }

  function NewEntry(note: Note, id: Id): Entry {
    Entry(note, [Snapshot(note, note.owner, id, note.createdAt)])
  }

  function RecordSession(entry: Entry, author: UserId, id: Id, now: Time): Entry {
    var latest := Latest(entry.history);
    if latest.Some? && SameContent(latest.value, entry.note) then entry
    else entry.(history := entry.history + [Snapshot(entry.note, author, id, now)])
  }

  function FindVersion(history: seq<Version>, id: Id): Option<Version> {
    if history == [] then None
    else if history[0].id == id then Some(history[0])
    else FindVersion(history[1..], id)
  }

  // ----- Requests -----

  datatype Caller = Caller(id: UserId, admin: bool)

  /** A patch with its nulls dropped: `None` leaves the field unchanged. */
  datatype Changes = Changes(
    title: Option<string>, body: Option<string>, color: Option<Color>, visibility: Option<Visibility>,
    pinned: Option<bool>, archived: Option<bool>)

  datatype Request =
    | Create(title: string, body: string, color: Color, visibility: Visibility)
    | Import(title: string, body: string, color: Color, createdAt: Time, updatedAt: Time)
    | Read
    | Patch(changes: Changes)
    | Lock
    | Unlock
    | ListVersions
    | Restore(versionId: Id)
    | Delete
    | AgentCreate(title: string, body: string, color: Color)
    | AgentGet
    | AgentUpdate(newTitle: Option<string>, newBody: Option<string>, newColor: Option<Color>)
    | AgentFlags(pinned: Option<bool>, archived: Option<bool>)
    | AgentDelete

  /** One request, served at `now`; `freshId` names the version it may append. */
  datatype Call = Call(caller: Caller, request: Request, now: Time, freshId: Id)

  /** What a caller is shown of a note; `lockedAt` stays inside. */
  datatype View = View(
    id: Id, title: string, body: string, color: Color, visibility: Visibility, owner: UserId,
    pinned: bool, archived: bool, createdAt: Time, updatedAt: Time,
    lockedBy: Option<UserId>, expiresAt: Option<Time>)

  datatype LockConflict = NoteLocked(holder: UserId, expiresAt: Option<Time>) | LockRequired

  datatype Refusal = VisibilityForbidden | OrganizeForbidden | DeleteForbidden

  datatype Reply =
    | Shown(view: View)
    | Done
    | History(versions: seq<Version>)
    | NotFound
    | VersionNotFound
    | Forbidden(refusal: Refusal)
    | Conflict(conflict: LockConflict)
    | Clash

  /** What happened to the lease and the content, for the record. */
  datatype Event =
    | Granted(user: UserId, at: Time, until: Time, begins: bool)
    | Released(user: UserId, at: Time)
    | Wrote(user: UserId, at: Time, visibility: Visibility)

  datatype Outcome = Outcome(entry: Option<Entry>, reply: Reply, events: seq<Event>)

  function ViewOf(id: Id, note: Note): View {
    View(id, note.title, note.body, note.color, note.visibility, note.owner, note.pinned, note.archived,
         note.createdAt, note.updatedAt, note.lockedBy, note.expiresAt)
  }

  /** The agent is told of a live holder only. */
  function PayloadOf(id: Id, note: Note, now: Time): View {
    ViewOf(id, note).(lockedBy := if IsStale(note.expiresAt, now) then None else note.lockedBy, expiresAt := None)
  }

  predicate Readable(note: Note, user: UserId) {
    note.visibility == PUBLIC || note.owner == user
  }

  function ConflictDetail(note: Note, now: Time): LockConflict {
    if note.lockedBy.Some? && !IsStale(note.expiresAt, now) then NoteLocked(note.lockedBy.value, note.expiresAt)
    else LockRequired
  }

  function Or<T>(change: Option<T>, current: T): T {
    if change.Some? then change.value else current
  }

  predicate HasContent(changes: Changes) {
    changes.title.Some? || changes.body.Some? || changes.color.Some? || changes.visibility.Some?
  }

  function Applied(note: Note, changes: Changes, now: Time): Note {
    note.(title := Or(changes.title, note.title),
          body := Or(changes.body, note.body),
          color := Or(changes.color, note.color),
          visibility := Or(changes.visibility, note.visibility),
          pinned := Or(changes.pinned, note.pinned),
          archived := Or(changes.archived, note.archived),
          updatedAt := if HasContent(changes) then now else note.updatedAt)
  }

  function BlankNote(title: string, body: string, color: Color, visibility: Visibility, owner: UserId,
                     createdAt: Time, updatedAt: Time): Note
  {
    Note(title, body, color, visibility, owner, false, false, createdAt, updatedAt, None, None, None)
  }

  function GrantEvent(note: Note, user: UserId, now: Time): Event {
    Granted(user, now, now + LOCK_TTL, !Renewing(note, user, now))
  }

  predicate NeedsBorrowing(note: Note, user: UserId, now: Time) {
    note.visibility == PUBLIC && !HoldsValidLock(note, user, now)
  }

  /** A content edit under the caller's lock, borrowed for the edit when the caller holds none. */
  function BorrowedEdit(id: Id, entry: Entry, changes: Changes, c: Call): Outcome
    requires HasContent(changes)
  {
    var user, now, note := c.caller.id, c.now, entry.note;
    var borrowed := NeedsBorrowing(note, user, now);
    if borrowed && !Grantable(note, user, now) then
      Outcome(Some(entry), Conflict(ConflictDetail(note, now)), [])
    else
      var held := if borrowed then Acquired(note, user, now) else note;
      var edited := RecordSession(Entry(Applied(held, changes, now), entry.history), user, c.freshId, now);
      var done := if borrowed then edited.(note := Unlocked(edited.note)) else edited;
      Outcome(Some(done), Shown(ViewOf(id, done.note)),
              (if borrowed then [GrantEvent(note, user, now)] else [])
              + [Wrote(user, now, note.visibility)]
              + (if borrowed then [Released(user, now)] else []))
  }

  /** The content a restore re-applies; visibility only for the owner. */
  function RestoredChanges(version: Version, note: Note, user: UserId): Changes {
    Changes(Some(version.title), Some(version.body), Some(version.color),
            if note.owner == user then Some(version.visibility) else None, None, None)
  }

  /** Newest first. */
  function InsertByDate(version: Version, sorted: seq<Version>): seq<Version> {
    if sorted == [] || version.createdAt >= sorted[0].createdAt then [version] + sorted
    else [sorted[0]] + InsertByDate(version, sorted[1..])
  }

  function NewestFirst(history: seq<Version>): seq<Version> {
    if history == [] then []
    else InsertByDate(history[|history| - 1], NewestFirst(history[..|history| - 1]))
  }

  function Refused(note: Note, changes: Changes, user: UserId): Option<Refusal> {
    if note.owner == user then None
    else if changes.visibility.Some? && changes.visibility.value != note.visibility then Some(VisibilityForbidden)
    else if changes.pinned.Some? && changes.pinned.value != note.pinned then Some(OrganizeForbidden)
    else if changes.archived.Some? && changes.archived.value != note.archived then Some(OrganizeForbidden)
    else None
  }

  function PatchStep(id: Id, entry: Entry, changes: Changes, c: Call): Outcome {
    var note, user, now := entry.note, c.caller.id, c.now;
    var refused := Refused(note, changes, user);
    if refused.Some? then Outcome(Some(entry), Forbidden(refused.value), [])
    else if HasContent(changes) && NeedsBorrowing(note, user, now) then
      Outcome(Some(entry), Conflict(ConflictDetail(note, now)), [])
    else
      var patched := Applied(note, changes, now);
      Outcome(Some(entry.(note := patched)), Shown(ViewOf(id, patched)),
              if HasContent(changes) then [Wrote(user, now, note.visibility)] else [])
  }

  function LockStep(id: Id, entry: Entry, c: Call): Outcome {
    var note, user, now := entry.note, c.caller.id, c.now;
    if !Grantable(note, user, now) then Outcome(Some(entry), Conflict(ConflictDetail(note, now)), [])
    else
      var held := Acquired(note, user, now);
      Outcome(Some(entry.(note := held)), Shown(ViewOf(id, held)), [GrantEvent(note, user, now)])
  }

  function UnlockStep(entry: Entry, c: Call): Outcome {
    var note, user := entry.note, c.caller.id;
    var released := note.lockedBy == Some(user);
    var freed := if released then entry.(note := Unlocked(note)) else entry;
    var closed :=
      if released || note.visibility != PUBLIC then RecordSession(freed, user, c.freshId, c.now) else freed;
    Outcome(Some(closed), Done, if released then [Released(user, c.now)] else [])
  }

  function RestoreStep(id: Id, entry: Entry, versionId: Id, c: Call): Outcome {
    var version := FindVersion(entry.history, versionId);
    if version.None? then Outcome(Some(entry), VersionNotFound, [])
    else BorrowedEdit(id, entry, RestoredChanges(version.value, entry.note, c.caller.id), c)
  }

  function DeleteStep(entry: Entry, c: Call): Outcome {
    if entry.note.owner != c.caller.id && !c.caller.admin then
      Outcome(Some(entry), if entry.note.visibility == PUBLIC then Forbidden(DeleteForbidden) else NotFound, [])
    else Outcome(None, Done, [])
  }

  function AgentUpdateStep(id: Id, entry: Entry, changes: Changes, c: Call): Outcome {
    if !HasContent(changes) then Outcome(Some(entry), Shown(PayloadOf(id, entry.note, c.now)), [])
    else
      var o := BorrowedEdit(id, entry, changes, c);
      if o.reply.Shown? then o.(reply := Shown(PayloadOf(id, o.entry.value.note, c.now)))
      else o.(reply := Conflict(NoteLocked(Or(entry.note.lockedBy, "Someone"), None)))
  }

  function AgentFlagsStep(id: Id, entry: Entry, pinned: Option<bool>, archived: Option<bool>, c: Call): Outcome {
    var note := entry.note;
    if note.owner != c.caller.id then Outcome(Some(entry), Forbidden(OrganizeForbidden), [])
    else
      var flagged := note.(pinned := Or(pinned, note.pinned), archived := Or(archived, note.archived));
      Outcome(Some(entry.(note := flagged)), Shown(PayloadOf(id, flagged, c.now)), [])
  }

  predicate IsCreation(request: Request) {
    request.Create? || request.Import? || request.AgentCreate?
  }

  /** The row a creation writes: imports are always private, the agent's notes always public. */
  function FirstNote(c: Call): Note
    requires IsCreation(c.request)
  {
    match c.request
    case Create(title, body, color, visibility) =>
      BlankNote(title, body, color, visibility, c.caller.id, c.now, c.now)
    case Import(title, body, color, createdAt, updatedAt) =>
      BlankNote(title, body, color, PRIVATE, c.caller.id, createdAt, updatedAt)
    case AgentCreate(title, body, color) =>
      BlankNote(title, body, color, PUBLIC, c.caller.id, c.now, c.now)
  }

  function CreateStep(id: Id, entry: Option<Entry>, c: Call): Outcome
    requires IsCreation(c.request)
  {
    if entry.Some? then Outcome(entry, Clash, [])
    else
      var note := FirstNote(c);
      var shown := if c.request.AgentCreate? then PayloadOf(id, note, c.now) else ViewOf(id, note);
      Outcome(Some(NewEntry(note, c.freshId)), Shown(shown), [])
  }

  /** What one request does to the note with this id. */
  function Step(id: Id, entry: Option<Entry>, c: Call): Outcome {
    if IsCreation(c.request) then CreateStep(id, entry, c)
    else if entry.None? then Outcome(None, NotFound, [])
    else if c.request.Delete? || c.request.AgentDelete? then DeleteStep(entry.value, c)
    else if !Readable(entry.value.note, c.caller.id) then Outcome(entry, NotFound, [])
    else ReadableStep(id, entry.value, c)
  }

  /** Requests that load the note through the visibility check. */
  function ReadableStep(id: Id, entry: Entry, c: Call): Outcome
    requires !IsCreation(c.request) && !c.request.Delete? && !c.request.AgentDelete?
  {
    match c.request
    case Read => Outcome(Some(entry), Shown(ViewOf(id, entry.note)), [])
    case AgentGet => Outcome(Some(entry), Shown(PayloadOf(id, entry.note, c.now)), [])
    case ListVersions => Outcome(Some(entry), History(NewestFirst(entry.history)), [])
    case Patch(changes) => PatchStep(id, entry, changes, c)
    case Lock => LockStep(id, entry, c)
    case Unlock => UnlockStep(entry, c)
    case Restore(versionId) => RestoreStep(id, entry, versionId, c)
    case AgentUpdate(title, body, color) =>
      AgentUpdateStep(id, entry, Changes(title, body, color, None, None, None), c)
    case AgentFlags(pinned, archived) => AgentFlagsStep(id, entry, pinned, archived, c)
  }
}
