/** One editing session is one version, and an edit under a borrowed lock is a whole session in one step. */
module Sessions {
  import opened Wrappers
  import opened Notes
  import opened Leases
  import opened SingleWriter
  import opened Histories

  // ----- One session, one version -----

  /** The requests by which the holder appends a version and goes on. */
  predicate OwnEdit(c: Call, holder: UserId) {
    c.caller.id == holder && (c.request.Restore? || c.request.AgentUpdate?)
  }

  function OwnEdits(calls: seq<Call>, holder: UserId): nat {
    if calls == [] then 0 else (if OwnEdit(calls[0], holder) then 1 else 0) + OwnEdits(calls[1..], holder)
  }

  /** Nothing lost, and at most so many versions more, all by one author. */
  predicate GrownBy(before: seq<Version>, after: seq<Version>, author: UserId, most: nat) {
    && before <= after && |after| <= |before| + most
    && forall k :: |before| <= k < |after| ==> after[k].author == author
  }

  lemma GrownTwice(a: seq<Version>, b: seq<Version>, c: seq<Version>, author: UserId, m: nat, n: nat)
    requires GrownBy(a, b, author, m) && GrownBy(b, c, author, n)
    ensures GrownBy(a, c, author, m + n)
  {
    forall k | |a| <= k < |c| ensures c[k].author == author {
      if k < |b| {
        assert c[k] == b[k];
      }
    }
  }

  lemma HeldHistory(id: Id, entry: Entry, c: Call, holder: UserId, since: Time, last: Time)
    requires HeldSince(entry.note, holder, since, last) && last <= c.now <= last + LOCK_TTL
    requires !IsCreation(c.request) && !(c.request.Unlock? && c.caller.id == holder)
    ensures var o := Step(id, Some(entry), c);
      o.entry.Some? ==>
        GrownBy(entry.history, o.entry.value.history, holder, if OwnEdit(c, holder) then 1 else 0)
  {
  }

  /**
   * While a session is kept alive, whatever anyone attempts short of deleting the note, versions are
   * appended only by the holder's own restores and agent edits, at most one each.
   */
  lemma {:induction false} OnlyTheHolderAddsVersions(
    id: Id, entry: Entry, calls: seq<Call>, holder: UserId, since: Time, last: Time)
    requires HeldSince(entry.note, holder, since, last) && Attentive(calls, holder, last) && NoCreation(calls)
    ensures var end := From(id, Some(entry), calls).entry;
      end.Some? ==>
        && GrownBy(entry.history, end.value.history, holder, OwnEdits(calls, holder))
        && end.value.note.lockedBy == Some(holder) && Readable(end.value.note, holder)
    ensures From(id, Some(entry), calls).entry.None? ==>
              exists c :: c in calls && (c.request.Delete? || c.request.AgentDelete?)
    decreases |calls|
  {
    hide Step;
    if calls != [] {
      var c, rest := calls[0], calls[1..];
      assert c in calls && forall d :: d in rest ==> d in calls;
      HeldHistory(id, entry, c, holder, since, last);
      HeldStep(id, entry, c, holder, since, last);
      var next := Step(id, Some(entry), c).entry;
      if next.None? {
        DeletedStaysDeleted(id, rest);
      } else {
        OnlyTheHolderAddsVersions(id, next.value, rest, holder, since,
                                  if c.request.Lock? && c.caller.id == holder then c.now else last);
        var end := From(id, Some(entry), calls).entry;
        if end.Some? {
          GrownTwice(entry.history, next.value.history, end.value.history, holder,
                     if OwnEdit(c, holder) then 1 else 0, OwnEdits(rest, holder));
        }
      }
    }
  }

  /** The newest version already shows the note. */
  predicate ShownByNewest(history: seq<Version>, note: Note) {
    Latest(history).Some? && SameContent(Latest(history).value, note)
  }

  lemma CloseAdds(id: Id, entry: Entry, close: Call)
    requires close.request.Unlock? && entry.note.lockedBy == Some(close.caller.id) && Readable(entry.note, close.caller.id)
    ensures Step(id, Some(entry), close).entry ==
            Some(Entry(Unlocked(entry.note),
                       entry.history + if ShownByNewest(entry.history, entry.note) then []
                                       else [Snapshot(entry.note, close.caller.id, close.freshId, close.now)]))
  {
    assert entry.history + [] == entry.history;
  }

  /**
   * Closing a session appends one version, by its holder and showing the note as it was left, unless the
   * newest version already shows it; a session without restores or agent edits of its holder adds no other.
   */
  lemma OneSessionOneVersion(
    id: Id, entry: Entry, calls: seq<Call>, close: Call, since: Time, last: Time)
    requires var holder := close.caller.id;
      HeldSince(entry.note, holder, since, last) && Attentive(calls, holder, last) && NoCreation(calls)
    requires close.request.Unlock?
    ensures var left, closed := From(id, Some(entry), calls).entry, From(id, Some(entry), calls + [close]).entry;
      left.Some? ==>
        && closed.Some?
        && closed.value.note == Unlocked(left.value.note)
        && closed.value.history == left.value.history
             + (if ShownByNewest(left.value.history, left.value.note) then []
                else [Snapshot(left.value.note, close.caller.id, close.freshId, close.now)])
        && (OwnEdits(calls, close.caller.id) == 0 ==> left.value.history == entry.history)
    ensures From(id, Some(entry), calls).entry.None? ==>
              exists c :: c in calls && (c.request.Delete? || c.request.AgentDelete?)
  {
    hide Step;
    OnlyTheHolderAddsVersions(id, entry, calls, close.caller.id, since, last);
    FromSnoc(id, Some(entry), calls, close);
    var left := From(id, Some(entry), calls).entry;
    if left.Some? {
      CloseAdds(id, left.value, close);
    }
  }

  lemma {:induction false} FromSnoc(id: Id, entry: Option<Entry>, calls: seq<Call>, c: Call)
    ensures From(id, entry, calls + [c]).entry == Step(id, From(id, entry, calls).entry, c).entry
    decreases |calls|
  {
    if calls == [] {
      assert [c][1..] == [] && calls + [c] == [c];
    } else {
      assert (calls + [c])[1..] == calls[1..] + [c];
      FromSnoc(id, Step(id, entry, calls[0]).entry, calls[1..], c);
    }
  }

  // ----- Borrowed locks -----

  /** Lock, patch the same fields and unlock, by the same caller at the same instant. */
  function Session(id: Id, entry: Entry, changes: Changes, c: Call): Outcome {
    var locked := Step(id, Some(entry), c.(request := Lock));
    var patched := Step(id, locked.entry, c.(request := Patch(changes)));
    var closed := Step(id, patched.entry, c.(request := Unlock));
    closed.(events := locked.events + patched.events + closed.events)
  }

  lemma BorrowedEditIsASession(id: Id, entry: Entry, changes: Changes, c: Call)
    requires NeedsBorrowing(entry.note, c.caller.id, c.now)
    requires HasContent(changes) && Refused(entry.note, changes, c.caller.id).None?
    ensures var o := BorrowedEdit(id, entry, changes, c);
      Session(id, entry, changes, c).entry == o.entry && Session(id, entry, changes, c).events == o.events
  {
    var note, user, now := entry.note, c.caller.id, c.now;
    if Grantable(note, user, now) {
      var held := entry.(note := Acquired(note, user, now));
      assert Step(id, Some(entry), c.(request := Lock)).entry == Some(held);
      var written := held.(note := Applied(held.note, changes, now));
      assert Step(id, Some(held), c.(request := Patch(changes))).entry == Some(written);
      assert Readable(written.note, user);
      assert RecordSession(written, user, c.freshId, now).history ==
             RecordSession(written.(note := Unlocked(written.note)), user, c.freshId, now).history;
    }
  }

  /** Restoring on a public note without holding its lock: state, history and record of a session. */
  lemma RestoreIsASession(id: Id, entry: Entry, c: Call)
    requires c.request.Restore? && NeedsBorrowing(entry.note, c.caller.id, c.now)
    ensures var version := FindVersion(entry.history, c.request.versionId);
      version.Some? ==>
        var session := Session(id, entry, RestoredChanges(version.value, entry.note, c.caller.id), c);
        && Step(id, Some(entry), c).entry == session.entry
        && Step(id, Some(entry), c).events == session.events
  {
    hide Session, RecordSession;
    var version := FindVersion(entry.history, c.request.versionId);
    if version.Some? {
      BorrowedEditIsASession(id, entry, RestoredChanges(version.value, entry.note, c.caller.id), c);
    }
  }

  /** The agent's edit of a public note whose lock it does not hold is one session. */
  lemma AgentUpdateIsASession(id: Id, entry: Entry, c: Call)
    requires c.request.AgentUpdate? && NeedsBorrowing(entry.note, c.caller.id, c.now)
    requires c.request.newTitle.Some? || c.request.newBody.Some? || c.request.newColor.Some?
    ensures var session := Session(id, entry,
              Changes(c.request.newTitle, c.request.newBody, c.request.newColor, None, None, None), c);
      && Step(id, Some(entry), c).entry == session.entry
      && Step(id, Some(entry), c).events == session.events
  {
    hide Session, RecordSession;
    BorrowedEditIsASession(id, entry,
      Changes(c.request.newTitle, c.request.newBody, c.request.newColor, None, None, None), c);
  }
}
