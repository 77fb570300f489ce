/** The single-editor lock over whole runs of requests on one note. */
module Leases {
  import opened Wrappers
  import opened Notes

  // ----- Runs -----

  /** A note and the record of what happened to its lease and its content. */
  datatype Traced = Traced(entry: Option<Entry>, log: seq<Event>)

  function Advance(id: Id, t: Traced, c: Call): Traced {
    var o := Step(id, t.entry, c);
    Traced(o.entry, t.log + o.events)
  }

  function Exec(id: Id, calls: seq<Call>): Traced {
    if calls == [] then Traced(None, [])
    else Advance(id, Exec(id, calls[..|calls| - 1]), calls[|calls| - 1])
  }

  lemma ExecSnoc(id: Id, before: seq<Call>, c: Call)
    ensures Exec(id, before + [c]) == Advance(id, Exec(id, before), c)
  {
    hide Step;
    assert (before + [c])[..|before|] == before;
  }

  predicate NoCreation(calls: seq<Call>) {
    forall c :: c in calls ==> !IsCreation(c.request)
  }

  predicate AllBefore(history: seq<Version>, now: Time) {
    forall version :: version in history ==> version.createdAt < now
  }

  /** A version that a step appends is dated after the earlier ones. */
  predicate DatedLater(before: Entry, after: Option<Entry>, now: Time) {
    after.Some? && after.value.history != before.history ==> AllBefore(before.history, now)
  }

  /**
   * What the environment guarantees: ids are used once, time does not go back, an appended version
   * is dated after the earlier ones of its note, and an imported note is dated in the past.
   */
  predicate TimelyCall(id: Id, before: seq<Call>, c: Call) {
    var was := Exec(id, before).entry;
    && (IsCreation(c.request) ==> NoCreation(before))
    && (before != [] ==> before[|before| - 1].now <= c.now)
    && (c.request.Import? ==> c.request.createdAt < c.now)
    && (was.Some? ==> DatedLater(was.value, Step(id, was, c).entry, c.now))
  }

  predicate Timely(id: Id, calls: seq<Call>) {
    calls == [] ||
    (Timely(id, calls[..|calls| - 1]) && TimelyCall(id, calls[..|calls| - 1], calls[|calls| - 1]))
  }

  // ----- The protocol the log follows -----

  /** The lease as the log alone tells it: who holds it, until when, and since which event. */
  datatype Lease = Lease(user: UserId, until: Time, since: nat)

  function LeaseAfter(log: seq<Event>): Option<Lease> {
    if log == [] then None
    else
      var n := |log| - 1;
      var before := LeaseAfter(log[..n]);
      match log[n]
      case Granted(user, _, until, begins) =>
        Some(Lease(user, until, if !begins && before.Some? then before.value.since else n))
      case Released(_, _) => None
      case Wrote(_, _, _) => before
  }

  /** What the state of the lease allows as the next event. */
  predicate Allowed(lease: Option<Lease>, event: Event) {
    match event
    case Granted(user, at, until, begins) =>
      && until == at + LOCK_TTL
      && if begins then lease.None? || lease.value.until < at
         else lease.Some? && lease.value.user == user && at <= lease.value.until <= until
    case Released(user, _) => lease.Some? && lease.value.user == user
    case Wrote(user, at, visibility) =>
      if visibility == PUBLIC then lease.Some? && lease.value.user == user && at <= lease.value.until
      else lease.None? || lease.value.user == user
  }

  predicate Protocol(log: seq<Event>) {
    forall k :: 0 <= k < |log| ==> Allowed(LeaseAfter(log[..k]), log[k])
  }

  predicate Ordered(log: seq<Event>) {
    forall i, j :: 0 <= i < j < |log| ==> log[i].at <= log[j].at
  }

  /** The row agrees with the log. */
  predicate RowMatches(note: Note, log: seq<Event>) {
    var lease := LeaseAfter(log);
    if lease.None? then note.lockedBy.None? && note.lockedAt.None? && note.expiresAt.None?
    else
      && note.lockedBy == Some(lease.value.user)
      && note.expiresAt == Some(lease.value.until)
      && lease.value.since < |log|
      && note.lockedAt == Some(log[lease.value.since].at)
      && (note.visibility == PRIVATE ==> lease.value.user == note.owner)
  }

  predicate LogInv(log: seq<Event>, now: Time) {
    && Protocol(log) && Ordered(log)
    && (forall e :: e in log ==> e.at <= now)
    && (LeaseAfter(log).Some? ==> LeaseAfter(log).value.until <= now + LOCK_TTL)
  }

  predicate NoteInv(note: Note, log: seq<Event>, now: Time) {
    LogInv(log, now) && RowMatches(note, log)
  }

  /** Everything that holds of a note and its log up to time `now`. */
  predicate Inv(t: Traced, now: Time) {
    if t.entry.Some? then NoteInv(t.entry.value.note, t.log, now) else LogInv(t.log, now)
  }

  lemma LeaseSnoc(log: seq<Event>, e: Event)
    ensures LeaseAfter(log + [e]) ==
            match e
            case Granted(user, _, until, begins) =>
              Some(Lease(user, until, if !begins && LeaseAfter(log).Some? then LeaseAfter(log).value.since else |log|))
            case Released(_, _) => None
            case Wrote(_, _, _) => LeaseAfter(log)
  {
    assert (log + [e])[..|log|] == log;
  }

  lemma ProtocolSnoc(log: seq<Event>, e: Event)
    requires Protocol(log) && Allowed(LeaseAfter(log), e)
    ensures Protocol(log + [e])
  {
    var longer := log + [e];
    forall k | 0 <= k < |longer| ensures Allowed(LeaseAfter(longer[..k]), longer[k]) {
      if k < |log| {
        assert longer[..k] == log[..k];
      } else {
        assert longer[..k] == log;
      }
    }
  }

  lemma LogGrows(log: seq<Event>, e: Event, now: Time)
    requires Protocol(log) && Ordered(log) && (forall f :: f in log ==> f.at <= now)
    requires Allowed(LeaseAfter(log), e) && e.at == now
    ensures Protocol(log + [e]) && Ordered(log + [e]) && (forall f :: f in log + [e] ==> f.at <= now)
  {
    ProtocolSnoc(log, e);
    var longer := log + [e];
    forall i, j | 0 <= i < j < |longer| ensures longer[i].at <= longer[j].at {
      assert log[i] in log;
    }
  }

  lemma GrantKeeps(note: Note, log: seq<Event>, user: UserId, now: Time)
    requires NoteInv(note, log, now) && Grantable(note, user, now) && Readable(note, user)
    ensures NoteInv(Acquired(note, user, now), log + [GrantEvent(note, user, now)], now)
  {
    var e := GrantEvent(note, user, now);
    LeaseSnoc(log, e);
    LogGrows(log, e, now);
  }

  lemma ReleaseKeeps(note: Note, log: seq<Event>, user: UserId, now: Time)
    requires NoteInv(note, log, now) && note.lockedBy == Some(user)
    ensures NoteInv(Unlocked(note), log + [Released(user, now)], now)
  {
    LeaseSnoc(log, Released(user, now));
    LogGrows(log, Released(user, now), now);
  }

  /** A content write by a caller who may make it. */
  lemma WriteKeeps(note: Note, log: seq<Event>, changes: Changes, user: UserId, now: Time)
    requires NoteInv(note, log, now)
    requires Readable(note, user) && !NeedsBorrowing(note, user, now) && Refused(note, changes, user).None?
    ensures NoteInv(Applied(note, changes, now), log + [Wrote(user, now, note.visibility)], now)
  {
    var e := Wrote(user, now, note.visibility);
    LeaseSnoc(log, e);
    LogGrows(log, e, now);
  }

  /** Acquire, write and release in one step. */
  lemma BorrowKeeps(note: Note, log: seq<Event>, changes: Changes, user: UserId, now: Time)
    requires NoteInv(note, log, now) && Grantable(note, user, now)
    requires Readable(note, user) && Refused(note, changes, user).None?
    ensures var held := Acquired(note, user, now);
      NoteInv(Unlocked(Applied(held, changes, now)),
              log + [GrantEvent(note, user, now)] + [Wrote(user, now, note.visibility)] + [Released(user, now)], now)
  {
    hide NoteInv;
    var held := Acquired(note, user, now);
    var written := Applied(held, changes, now);
    var granted := log + [GrantEvent(note, user, now)];
    GrantKeeps(note, log, user, now);
    WriteKeeps(held, granted, changes, user, now);
    ReleaseKeeps(written, granted + [Wrote(user, now, note.visibility)], user, now);
  }

  lemma BorrowedKeeps(id: Id, entry: Entry, log: seq<Event>, changes: Changes, c: Call)
    requires NoteInv(entry.note, log, c.now)
    requires Readable(entry.note, c.caller.id) && HasContent(changes)
    requires Refused(entry.note, changes, c.caller.id).None?
    ensures var o := BorrowedEdit(id, entry, changes, c);
      o.entry.Some? && NoteInv(o.entry.value.note, log + o.events, c.now)
  {
    hide NoteInv;
    var user, now, note := c.caller.id, c.now, entry.note;
    var events := BorrowedEdit(id, entry, changes, c).events;
    if !NeedsBorrowing(note, user, now) {
      WriteKeeps(note, log, changes, user, now);
      assert events == [Wrote(user, now, note.visibility)];
    } else if Grantable(note, user, now) {
      BorrowKeeps(note, log, changes, user, now);
      assert log + events ==
             log + [GrantEvent(note, user, now)] + [Wrote(user, now, note.visibility)] + [Released(user, now)];
    } else {
      assert log + [] == log;
    }
  }

  lemma PatchKeeps(id: Id, entry: Entry, log: seq<Event>, changes: Changes, c: Call)
    requires NoteInv(entry.note, log, c.now) && Readable(entry.note, c.caller.id)
    ensures var o := PatchStep(id, entry, changes, c);
      o.entry.Some? && NoteInv(o.entry.value.note, log + o.events, c.now)
  {
    var note, user, now := entry.note, c.caller.id, c.now;
    assert log + [] == log;
    if Refused(note, changes, user).None? && HasContent(changes) && !NeedsBorrowing(note, user, now) {
      WriteKeeps(note, log, changes, user, now);
    }
  }

  lemma LockKeeps(id: Id, entry: Entry, log: seq<Event>, c: Call)
    requires NoteInv(entry.note, log, c.now) && Readable(entry.note, c.caller.id)
    ensures var o := LockStep(id, entry, c);
      o.entry.Some? && NoteInv(o.entry.value.note, log + o.events, c.now)
  {
    hide NoteInv;
    assert log + [] == log;
    if Grantable(entry.note, c.caller.id, c.now) {
      GrantKeeps(entry.note, log, c.caller.id, c.now);
    }
  }

  lemma UnlockKeeps(entry: Entry, log: seq<Event>, c: Call)
    requires NoteInv(entry.note, log, c.now)
    ensures var o := UnlockStep(entry, c);
      o.entry.Some? && NoteInv(o.entry.value.note, log + o.events, c.now)
  {
    assert log + [] == log;
    if entry.note.lockedBy == Some(c.caller.id) {
      ReleaseKeeps(entry.note, log, c.caller.id, c.now);
    }
  }

  lemma RestoreKeeps(id: Id, entry: Entry, log: seq<Event>, versionId: Id, c: Call)
    requires NoteInv(entry.note, log, c.now) && Readable(entry.note, c.caller.id)
    ensures var o := RestoreStep(id, entry, versionId, c);
      o.entry.Some? && NoteInv(o.entry.value.note, log + o.events, c.now)
  {
    hide NoteInv;
    assert log + [] == log;
    var version := FindVersion(entry.history, versionId);
    if version.Some? {
      BorrowedKeeps(id, entry, log, RestoredChanges(version.value, entry.note, c.caller.id), c);
    }
  }

  lemma AgentUpdateKeeps(id: Id, entry: Entry, log: seq<Event>, changes: Changes, c: Call)
    requires NoteInv(entry.note, log, c.now) && Readable(entry.note, c.caller.id)
    requires Refused(entry.note, changes, c.caller.id).None?
    ensures var o := AgentUpdateStep(id, entry, changes, c);
      o.entry.Some? && NoteInv(o.entry.value.note, log + o.events, c.now)
  {
    hide NoteInv;
    assert log + [] == log;
    if HasContent(changes) {
      BorrowedKeeps(id, entry, log, changes, c);
    }
  }

  lemma ReadableKeeps(id: Id, entry: Entry, log: seq<Event>, c: Call)
    requires !IsCreation(c.request) && !c.request.Delete? && !c.request.AgentDelete?
    requires NoteInv(entry.note, log, c.now) && Readable(entry.note, c.caller.id)
    ensures var o := ReadableStep(id, entry, c);
      o.entry.Some? && NoteInv(o.entry.value.note, log + o.events, c.now)
  {
    assert log + [] == log;
    match c.request {
      case Patch(changes) => PatchKeeps(id, entry, log, changes, c);
      case Lock => LockKeeps(id, entry, log, c);
      case Unlock => UnlockKeeps(entry, log, c);
      case Restore(versionId) => RestoreKeeps(id, entry, log, versionId, c);
      case AgentUpdate(title, body, color) =>
        AgentUpdateKeeps(id, entry, log, Changes(title, body, color, None, None, None), c);
      case Read =>
      case AgentGet =>
      case ListVersions =>
      case AgentFlags(_, _) =>
    }
  }

  lemma StepKeeps(id: Id, t: Traced, c: Call)
    requires Inv(t, c.now)
    requires IsCreation(c.request) ==> t.log == []
    ensures Inv(Advance(id, t, c), c.now)
  {
    assert t.log + [] == t.log;
    if !IsCreation(c.request) && t.entry.Some? && !c.request.Delete? && !c.request.AgentDelete?
       && Readable(t.entry.value.note, c.caller.id) {
      ReadableKeeps(id, t.entry.value, t.log, c);
    }
  }

  lemma InvLater(t: Traced, now: Time, later: Time)
    requires Inv(t, now) && now <= later
    ensures Inv(t, later)
  {
  }

  /** Nothing is recorded before the note is created. */
  lemma {:induction false} NothingBefore(id: Id, calls: seq<Call>)
    requires NoCreation(calls)
    ensures Exec(id, calls) == Traced(None, [])
  {
    if calls != [] {
      assert calls[|calls| - 1] in calls;
      NothingBefore(id, calls[..|calls| - 1]);
    }
  }

  function LastTime(calls: seq<Call>): Time {
    if calls == [] then 0 else calls[|calls| - 1].now
  }

  /** Every run keeps the invariant. */
  lemma {:induction false} RunKeeps(id: Id, calls: seq<Call>)
    requires Timely(id, calls)
    ensures Inv(Exec(id, calls), LastTime(calls))
  {
    if calls != [] {
      var before, c := calls[..|calls| - 1], calls[|calls| - 1];
      RunKeeps(id, before);
      if before != [] {
        InvLater(Exec(id, before), LastTime(before), c.now);
      }
      if IsCreation(c.request) {
        NothingBefore(id, before);
      }
      StepKeeps(id, Exec(id, before), c);
    }
  }
}
