/** What the lock promises over every run: one writer at a time. */
module SingleWriter {
  import opened Wrappers
  import opened Notes
  import opened Leases

  predicate Begins(event: Event) {
    event.Granted? && event.begins
  }

  /** No lock session begins or ends strictly between two events. */
  predicate SameSession(log: seq<Event>, i: nat, j: nat)
    requires i <= j <= |log|
  {
    forall k :: i < k < j ==> !log[k].Released? && !Begins(log[k])
  }

  /** An edit that changes what readers see is on record, with the editor and the time. */
  lemma ContentChangesAreRecorded(id: Id, entry: Entry, c: Call)
    ensures var o := Step(id, Some(entry), c);
      o.entry.Some? && !SameContent(Snapshot(entry.note, "", "", 0), o.entry.value.note)
      ==> Wrote(c.caller.id, c.now, entry.note.visibility) in o.events
  {
    hide BorrowedEdit, Latest, Grantable, Refused;
    if c.request.Restore? {
      var version := FindVersion(entry.history, c.request.versionId);
      if version.Some? {
        BorrowedIsRecorded(id, entry, RestoredChanges(version.value, entry.note, c.caller.id), c);
      }
    } else if c.request.AgentUpdate? {
      var changes := Changes(c.request.newTitle, c.request.newBody, c.request.newColor, None, None, None);
      if HasContent(changes) {
        BorrowedIsRecorded(id, entry, changes, c);
      }
    }
  }

  lemma BorrowedIsRecorded(id: Id, entry: Entry, changes: Changes, c: Call)
    requires HasContent(changes)
    ensures var o := BorrowedEdit(id, entry, changes, c);
      Wrote(c.caller.id, c.now, entry.note.visibility) in o.events || o.entry == Some(entry)
  {
  }

  /** `lease` began at its `since` event and was last granted at `grant`, undisturbed from then on. */
  predicate Origin(log: seq<Event>, lease: Lease, grant: nat) {
    && lease.since <= grant < |log|
    && Begins(log[lease.since]) && log[lease.since].user == lease.user
    && SameSession(log, lease.since, |log|)
    && log[grant].Granted? && log[grant].user == lease.user && log[grant].until == lease.until
    && (forall k :: grant < k < |log| ==> log[k].Wrote?)
  }

  lemma OriginSnoc(before: seq<Event>, e: Event, lease: Lease, grant: nat)
    requires Origin(before, lease, grant)
    ensures e.Wrote? ==> Origin(before + [e], lease, grant)
    ensures e.Granted? && !e.begins && e.user == lease.user ==>
              Origin(before + [e], Lease(lease.user, e.until, lease.since), |before|)
  {
  }

  /** Where the current lease comes from. */
  lemma {:induction false} LeaseOrigin(log: seq<Event>) returns (grant: nat)
    requires Protocol(log) && LeaseAfter(log).Some?
    ensures Origin(log, LeaseAfter(log).value, grant)
  {
    var n := |log| - 1;
    var before, e := log[..n], log[n];
    assert forall k :: 0 <= k < n ==> before[..k] == log[..k];
    assert Allowed(LeaseAfter(before), e) && !e.Released?;
    assert log == before + [e];
    grant := n;
    if !Begins(e) {
      grant := LeaseOrigin(before);
      OriginSnoc(before, e, LeaseAfter(before).value, grant);
      if e.Granted? {
        grant := n;
      }
    }
  }

  lemma LogIsLegal(id: Id, calls: seq<Call>)
    requires Timely(id, calls)
    ensures Protocol(Exec(id, calls).log) && Ordered(Exec(id, calls).log)
  {
    RunKeeps(id, calls);
  }

  lemma LegalPrefix(log: seq<Event>, k: nat)
    requires Protocol(log) && k <= |log|
    ensures Protocol(log[..k])
  {
    assert forall m :: 0 <= m < k ==> log[..k][..m] == log[..m];
  }

  lemma WriteIsLeased(log: seq<Event>, k: nat) returns (grant: nat)
    requires Protocol(log) && Ordered(log)
    requires k < |log| && log[k].Wrote? && log[k].visibility == PUBLIC
    ensures grant < k && log[grant].Granted? && log[grant].user == log[k].user
    ensures log[grant].at <= log[k].at <= log[grant].until == log[grant].at + LOCK_TTL
    ensures forall m :: grant < m < k ==> log[m].Wrote?
  {
    assert Allowed(LeaseAfter(log[..k]), log[k]);
    LegalPrefix(log, k);
    grant := LeaseOrigin(log[..k]);
    assert forall m :: grant <= m < k ==> log[..k][m] == log[m];
    assert Allowed(LeaseAfter(log[..grant]), log[grant]);
  }

  /**
   * A write to a public note is made under a lease granted to the writer and not yet expired;
   * since that grant nobody was granted or released the lock.
   */
  lemma PublicWritesAreLeased(id: Id, calls: seq<Call>, k: nat) returns (grant: nat)
    requires Timely(id, calls)
    requires k < |Exec(id, calls).log| && Exec(id, calls).log[k].Wrote? && Exec(id, calls).log[k].visibility == PUBLIC
    ensures var log := Exec(id, calls).log;
      && grant < k && log[grant].Granted? && log[grant].user == log[k].user
      && log[grant].at <= log[k].at <= log[grant].until == log[grant].at + LOCK_TTL
      && forall m :: grant < m < k ==> log[m].Wrote?
  {
    LogIsLegal(id, calls);
    grant := WriteIsLeased(Exec(id, calls).log, k);
  }

  /** A grant is over once it was released or outlived. */
  predicate Ended(log: seq<Event>, i: nat, j: nat)
    requires i < j <= |log| && log[i].Granted?
  {
    exists k :: i < k < j && ((log[k].Released? && log[k].user == log[i].user) || log[i].until < log[k].at)
  }

  predicate Stands(log: seq<Event>, i: nat, j: nat)
    requires i < j <= |log| && log[i].Granted?
  {
    var lease := LeaseAfter(log[..j]);
    lease.Some? && lease.value.user == log[i].user && log[i].until <= lease.value.until
  }

  lemma StandsOrEnds(log: seq<Event>, i: nat, j: nat)
    requires i < j < |log| && log[i].Granted? && Stands(log, i, j) && Allowed(LeaseAfter(log[..j]), log[j])
    ensures Stands(log, i, j + 1) || Ended(log, i, j + 1)
  {
    assert log[..j + 1][..j] == log[..j];
  }

  lemma GrantStands(log: seq<Event>, i: nat)
    requires Protocol(log) && i < |log| && log[i].Granted?
    ensures Stands(log, i, i + 1)
  {
    assert log[..i + 1] == log[..i] + [log[i]];
    LeaseSnoc(log[..i], log[i]);
  }

  /** A grant stands until it is over. */
  lemma {:induction false} GrantsEndOrStand(log: seq<Event>, i: nat, j: nat)
    requires Protocol(log) && i < j <= |log| && log[i].Granted?
    ensures Ended(log, i, j) || Stands(log, i, j)
    decreases j
  {
    hide Stands, LeaseAfter, Allowed;
    if i + 1 == j {
      GrantStands(log, i);
    } else {
      GrantsEndOrStand(log, i, j - 1);
      if Stands(log, i, j - 1) {
        StandsOrEnds(log, i, j - 1);
      }
    }
  }

  lemma GrantsDoNotOverlap(log: seq<Event>, i: nat, j: nat)
    requires Protocol(log) && Ordered(log) && i < j < |log| && log[i].Granted? && log[j].Granted?
    requires log[i].user != log[j].user
    ensures log[i].until < log[j].at || exists k :: i < k < j && log[k].Released? && log[k].user == log[i].user
  {
    GrantsEndOrStand(log, i, j);
    assert Allowed(LeaseAfter(log[..j]), log[j]);
  }

  /** Leases granted to different users never overlap. */
  lemma LeasesNeverOverlap(id: Id, calls: seq<Call>, i: nat, j: nat)
    requires Timely(id, calls)
    requires i < j < |Exec(id, calls).log| && Exec(id, calls).log[i].Granted? && Exec(id, calls).log[j].Granted?
    requires Exec(id, calls).log[i].user != Exec(id, calls).log[j].user
    ensures var log := Exec(id, calls).log;
      || log[i].until < log[j].at
      || (exists k :: i < k < j && log[k].Released? && log[k].user == log[i].user)
  {
    LogIsLegal(id, calls);
    GrantsDoNotOverlap(Exec(id, calls).log, i, j);
  }

  lemma PublicWriterHolds(log: seq<Event>, i: nat)
    requires Protocol(log) && i < |log| && log[i].Wrote? && log[i].visibility == PUBLIC
    ensures LeaseAfter(log[..i]).Some? && LeaseAfter(log[..i]).value.user == log[i].user
  {
    assert Allowed(LeaseAfter(log[..i]), log[i]);
  }

  lemma SessionStep(log: seq<Event>, k: nat, user: UserId)
    requires Protocol(log) && k < |log| && !log[k].Released? && !Begins(log[k])
    requires LeaseAfter(log[..k]).Some? && LeaseAfter(log[..k]).value.user == user
    ensures LeaseAfter(log[..k + 1]).Some? && LeaseAfter(log[..k + 1]).value.user == user
  {
    assert Allowed(LeaseAfter(log[..k]), log[k]);
    assert log[..k + 1] == log[..k] + [log[k]];
    LeaseSnoc(log[..k], log[k]);
  }

  lemma {:induction false} SessionKeepsUser(log: seq<Event>, i: nat, k: nat)
    requires Protocol(log) && i <= k <= |log| && SameSession(log, i, k)
    requires i < |log| && log[i].Wrote? && log[i].visibility == PUBLIC
    ensures LeaseAfter(log[..k]).Some? && LeaseAfter(log[..k]).value.user == log[i].user
    decreases k
  {
    hide LeaseAfter, Protocol;
    if i == k {
      PublicWriterHolds(log, i);
    } else {
      SessionKeepsUser(log, i, k - 1);
      SessionStep(log, k - 1, log[i].user);
    }
  }

  /** After a public write, and until its session ends, every write, public or private, is by the same user. */
  lemma WritersDoNotInterleave(id: Id, calls: seq<Call>, i: nat, k: nat)
    requires Timely(id, calls)
    requires i < k < |Exec(id, calls).log| && SameSession(Exec(id, calls).log, i, k)
    requires Exec(id, calls).log[i].Wrote? && Exec(id, calls).log[i].visibility == PUBLIC
    requires Exec(id, calls).log[k].Wrote?
    ensures Exec(id, calls).log[k].user == Exec(id, calls).log[i].user
  {
    LogIsLegal(id, calls);
    var log := Exec(id, calls).log;
    SessionKeepsUser(log, i, k);
    assert Allowed(LeaseAfter(log[..k]), log[k]);
  }

  /** The row shows the lease of the record, and `locked_at` the event that began the session. */
  lemma RowShowsTheLease(id: Id, calls: seq<Call>)
    requires Timely(id, calls) && Exec(id, calls).entry.Some?
    ensures RowMatches(Exec(id, calls).entry.value.note, Exec(id, calls).log)
  {
    RunKeeps(id, calls);
  }

  // ----- Heartbeats -----

  /**
   * `user` keeps the lock alive through `calls`: never unlocks, and at no step did more than the
   * time to live pass since the last renewal, which was at `last`.
   */
  predicate Attentive(calls: seq<Call>, user: UserId, last: Time) {
    calls == [] ||
    (var c := calls[0];
     && last <= c.now <= last + LOCK_TTL
     && !(c.request.Unlock? && c.caller.id == user)
     && Attentive(calls[1..], user, if c.request.Lock? && c.caller.id == user then c.now else last))
  }

  /** Runs from a given entry, step by step. */
  function From(id: Id, entry: Option<Entry>, calls: seq<Call>): Traced
    decreases |calls|
  {
    if calls == [] then Traced(entry, [])
    else
      var o := Step(id, entry, calls[0]);
      var rest := From(id, o.entry, calls[1..]);
      Traced(rest.entry, o.events + rest.log)
  }

  /** `user` has held the lock since `since`, last renewed at `last`. */
  predicate HeldSince(note: Note, user: UserId, since: Time, last: Time) {
    note.lockedBy == Some(user) && note.lockedAt == Some(since) && note.expiresAt == Some(last + LOCK_TTL)
    && Readable(note, user)
  }

  predicate KeepsHeld(o: Outcome, user: UserId, since: Time, last: Time) {
    && (forall e :: e in o.events && e.Granted? ==> e.user == user)
    && (o.entry.Some? ==> HeldSince(o.entry.value.note, user, since, last))
  }

  lemma HeldEdit(id: Id, entry: Entry, changes: Changes, c: Call, user: UserId, since: Time, last: Time)
    requires HeldSince(entry.note, user, since, last) && last <= c.now <= last + LOCK_TTL
    requires HasContent(changes) && Readable(entry.note, c.caller.id)
    requires Refused(entry.note, changes, c.caller.id).None?
    ensures KeepsHeld(BorrowedEdit(id, entry, changes, c), user, since, last)
  {
  }

  lemma HeldPatch(id: Id, entry: Entry, changes: Changes, c: Call, user: UserId, since: Time, last: Time)
    requires HeldSince(entry.note, user, since, last) && last <= c.now <= last + LOCK_TTL
    requires Readable(entry.note, c.caller.id)
    ensures KeepsHeld(PatchStep(id, entry, changes, c), user, since, last)
  {
  }

  lemma HeldStep(id: Id, entry: Entry, c: Call, user: UserId, since: Time, last: Time)
    requires HeldSince(entry.note, user, since, last) && last <= c.now <= last + LOCK_TTL
    requires !IsCreation(c.request) && !(c.request.Unlock? && c.caller.id == user)
    ensures KeepsHeld(Step(id, Some(entry), c), user, since, if c.request.Lock? && c.caller.id == user then c.now else last)
    ensures Step(id, Some(entry), c).entry.None? ==> c.request.Delete? || c.request.AgentDelete?
  {
    if !c.request.Delete? && !c.request.AgentDelete? && Readable(entry.note, c.caller.id) {
      match c.request {
        case Patch(changes) => HeldPatch(id, entry, changes, c, user, since, last);
        case Restore(versionId) =>
          var version := FindVersion(entry.history, versionId);
          if version.Some? {
            HeldEdit(id, entry, RestoredChanges(version.value, entry.note, c.caller.id), c, user, since, last);
          }
        case AgentUpdate(title, body, color) =>
          var changes := Changes(title, body, color, None, None, None);
          if HasContent(changes) {
            HeldEdit(id, entry, changes, c, user, since, last);
          }
        case Read =>
        case AgentGet =>
        case ListVersions =>
        case Lock =>
        case Unlock =>
        case AgentFlags(_, _) =>
      }
    }
  }

  /** While its holder keeps it alive, the lock is never granted to anyone else and never restamped. */
  lemma {:induction false} HeartbeatsKeepTheLock(
    id: Id, entry: Entry, calls: seq<Call>, user: UserId, since: Time, last: Time)
    requires HeldSince(entry.note, user, since, last) && Attentive(calls, user, last)
    requires forall c :: c in calls ==> !IsCreation(c.request)
    ensures var t := From(id, Some(entry), calls);
      && (forall e :: e in t.log && e.Granted? ==> e.user == user)
      && (t.entry.Some? ==> t.entry.value.note.lockedBy == Some(user) && t.entry.value.note.lockedAt == Some(since))
    decreases |calls|
  {
    if calls != [] {
      var c := calls[0];
      assert c in calls && forall d :: d in calls[1..] ==> d in calls;
      HeldStep(id, entry, c, user, since, last);
      var next := Step(id, Some(entry), c).entry;
      if next.Some? {
        HeartbeatsKeepTheLock(id, next.value, calls[1..], user, since,
                              if c.request.Lock? && c.caller.id == user then c.now else last);
      } else {
        DeletedStaysDeleted(id, calls[1..]);
      }
    }
  }

  lemma {:induction false} DeletedStaysDeleted(id: Id, calls: seq<Call>)
    requires forall c :: c in calls ==> !IsCreation(c.request)
    ensures From(id, None, calls) == Traced(None, [])
  {
    if calls != [] {
      assert calls[0] in calls && forall c :: c in calls[1..] ==> c in calls;
      DeletedStaysDeleted(id, calls[1..]);
    }
  }

  /** A run continued from a reachable entry is a run. */
  lemma {:induction false} RunContinues(id: Id, before: seq<Call>, calls: seq<Call>)
    ensures var rest := From(id, Exec(id, before).entry, calls);
      && Exec(id, before + calls).entry == rest.entry
      && Exec(id, before + calls).log == Exec(id, before).log + rest.log
    decreases |calls|
  {
    hide Step, Exec;
    if calls == [] {
      assert before + calls == before;
    } else {
      var longer := before + [calls[0]];
      assert before + calls == longer + calls[1..];
      ExecSnoc(id, before, calls[0]);
      RunContinues(id, longer, calls[1..]);
    }
  }

  /** In a run, whoever holds the lease by the record holds the lock as the heartbeat theorems ask. */
  lemma LeaseIsHeld(id: Id, calls: seq<Call>)
    requires Timely(id, calls) && Exec(id, calls).entry.Some? && LeaseAfter(Exec(id, calls).log).Some?
    ensures var t, lease := Exec(id, calls), LeaseAfter(Exec(id, calls).log).value;
      && lease.since < |t.log|
      && HeldSince(t.entry.value.note, lease.user, t.log[lease.since].at, lease.until - LOCK_TTL)
  {
    RunKeeps(id, calls);
  }

  /** In every run, from any point at which the lock is leased: kept alive, it goes to nobody else. */
  lemma HeartbeatsHoldInRuns(id: Id, before: seq<Call>, calls: seq<Call>)
    requires Timely(id, before) && Exec(id, before).entry.Some? && LeaseAfter(Exec(id, before).log).Some?
    requires var lease := LeaseAfter(Exec(id, before).log).value;
      Attentive(calls, lease.user, lease.until - LOCK_TTL)
    requires NoCreation(calls)
    ensures var held, lease, t := Exec(id, before), LeaseAfter(Exec(id, before).log).value, Exec(id, before + calls);
      && (forall k :: |held.log| <= k < |t.log| && t.log[k].Granted? ==> t.log[k].user == lease.user)
      && (t.entry.Some? ==>
            t.entry.value.note.lockedBy == Some(lease.user) &&
            t.entry.value.note.lockedAt == held.entry.value.note.lockedAt)
  {
    hide Step, Exec, From, Timely, Attentive, LeaseAfter;
    var held, lease := Exec(id, before), LeaseAfter(Exec(id, before).log).value;
    LeaseIsHeld(id, before);
    RunContinues(id, before, calls);
    HeartbeatsKeepTheLock(id, held.entry.value, calls, lease.user, held.log[lease.since].at, lease.until - LOCK_TTL);
    var rest := From(id, held.entry, calls).log;
    forall k | |held.log| <= k < |held.log| + |rest| && (held.log + rest)[k].Granted?
      ensures (held.log + rest)[k].user == lease.user
    {
      assert (held.log + rest)[k] == rest[k - |held.log|] && rest[k - |held.log|] in rest;
    }
  }

  /** A heartbeat slot, whose renewal arrives or is lost, or a request by anyone. */
  datatype Tick = Beat(delivered: bool, freshId: Id) | Other(call: Call)

  /** The requests that reach the server; heartbeat slots follow each other every 20 seconds. */
  function Arriving(ticks: seq<Tick>, holder: Caller, slot: Time): seq<Call>
    decreases |ticks|
  {
    if ticks == [] then []
    else match ticks[0]
      case Other(call) => [call] + Arriving(ticks[1..], holder, slot)
      case Beat(delivered, freshId) =>
        (if delivered then [Call(holder, Lock, slot + HEARTBEAT, freshId)] else [])
        + Arriving(ticks[1..], holder, slot + HEARTBEAT)
  }

  /** Requests fall between their slots, the holder does not unlock, and no more than two beats in a row are lost. */
  predicate OnSchedule(ticks: seq<Tick>, holder: UserId, slot: Time, lost: nat)
    decreases |ticks|
  {
    ticks == [] ||
    match ticks[0]
    case Other(call) =>
      && slot <= call.now <= slot + HEARTBEAT
      && !(call.request.Unlock? && call.caller.id == holder) && !(call.request.Lock? && call.caller.id == holder)
      && !IsCreation(call.request)
      && OnSchedule(ticks[1..], holder, slot, lost)
    case Beat(delivered, _) =>
      && (delivered || lost < 2)
      && OnSchedule(ticks[1..], holder, slot + HEARTBEAT, if delivered then 0 else lost + 1)
  }

  lemma NothingIsAttentive(user: UserId, last: Time)
    ensures Attentive([], user, last)
  {
  }

  lemma {:induction false} ScheduleIsAttentive(ticks: seq<Tick>, holder: Caller, slot: Time, lost: nat, last: Time)
    requires OnSchedule(ticks, holder.id, slot, lost) && lost <= 2 && slot == last + lost * HEARTBEAT
    ensures Attentive(Arriving(ticks, holder, slot), holder.id, last)
    ensures NoCreation(Arriving(ticks, holder, slot))
    decreases |ticks|
  {
    hide Attentive;
    if ticks == [] {
      NothingIsAttentive(holder.id, last);
    } else if ticks[0].Other? {
      var rest := Arriving(ticks[1..], holder, slot);
      ScheduleIsAttentive(ticks[1..], holder, slot, lost, last);
      AttentiveCons(ticks[0].call, rest, holder.id, last);
    } else if ticks[0].delivered {
      var next := slot + HEARTBEAT;
      var rest := Arriving(ticks[1..], holder, next);
      ScheduleIsAttentive(ticks[1..], holder, next, 0, next);
      AttentiveCons(Call(holder, Lock, next, ticks[0].freshId), rest, holder.id, last);
    } else {
      var next := slot + HEARTBEAT;
      ScheduleIsAttentive(ticks[1..], holder, next, lost + 1, last);
      assert [] + Arriving(ticks[1..], holder, next) == Arriving(ticks[1..], holder, next);
    }
  }

  lemma AttentiveCons(c: Call, rest: seq<Call>, user: UserId, last: Time)
    requires last <= c.now <= last + LOCK_TTL && !(c.request.Unlock? && c.caller.id == user)
    requires Attentive(rest, user, if c.request.Lock? && c.caller.id == user then c.now else last)
    ensures Attentive([c] + rest, user, last)
  {
    assert ([c] + rest)[1..] == rest;
  }

  /** With a beat every 20 seconds and a 60 second lease, any two consecutive lost beats are harmless. */
  lemma TwoLostHeartbeatsAreHarmless(id: Id, entry: Entry, ticks: seq<Tick>, holder: Caller, since: Time, granted: Time)
    requires HeldSince(entry.note, holder.id, since, granted) && OnSchedule(ticks, holder.id, granted, 0)
    ensures var t := From(id, Some(entry), Arriving(ticks, holder, granted));
      && (forall e :: e in t.log && e.Granted? ==> e.user == holder.id)
      && (t.entry.Some? ==> t.entry.value.note.lockedBy == Some(holder.id) && t.entry.value.note.lockedAt == Some(since))
  {
    ScheduleIsAttentive(ticks, holder, granted, 0, granted);
    HeartbeatsKeepTheLock(id, entry, Arriving(ticks, holder, granted), holder.id, since, granted);
  }

  /** The bound is sharp: anyone else gets the lock as soon as more than the time to live has passed. */
  lemma TakeoverExactlyAfterExpiry(id: Id, entry: Entry, c: Call, holder: UserId, since: Time, last: Time)
    requires HeldSince(entry.note, holder, since, last) && c.request.Lock? && c.caller.id != holder
    requires Readable(entry.note, c.caller.id)
    ensures Step(id, Some(entry), c).reply.Shown? <==> last + LOCK_TTL < c.now
    ensures last + LOCK_TTL < c.now ==>
              var note := Step(id, Some(entry), c).entry.value.note;
              note.lockedBy == Some(c.caller.id) && note.lockedAt == Some(c.now)
  {
  }
}
