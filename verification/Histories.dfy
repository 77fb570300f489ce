/** Version history over whole runs: the root, the growing list, and what an unlock leaves behind. */
module Histories {
  import opened Wrappers
  import opened Notes
  import opened Leases

  predicate SameSnapshot(a: Version, b: Version) {
    a.title == b.title && a.body == b.body && a.color == b.color && a.visibility == b.visibility
  }

  predicate Increasing(history: seq<Version>) {
    forall i, j :: 0 <= i < j < |history| ==> history[i].createdAt < history[j].createdAt
  }

  predicate NoRepeats(history: seq<Version>) {
    forall i :: 0 <= i < |history| - 1 ==> !SameSnapshot(history[i], history[i + 1])
  }

  /** The creation root first, dates increasing, no two neighbours alike. */
  predicate GoodHistory(entry: Entry) {
    && entry.history != []
    && entry.history[0].author == entry.note.owner
    && entry.history[0].createdAt == entry.note.createdAt
    && Increasing(entry.history)
    && NoRepeats(entry.history)
  }

  function Last(history: seq<Version>): Version
    requires history != []
  {
    history[|history| - 1]
  }

  /** With increasing dates the newest version is the last appended. */
  lemma {:induction false} LatestIsLast(history: seq<Version>)
    requires history != [] && Increasing(history)
    ensures Latest(history) == Some(Last(history))
  {
    if |history| > 1 {
      LatestIsLast(history[1..]);
    }
  }

  /** The last version is by `author`, of this id and date, and shows the note. */
  predicate AppendedBy(entry: Entry, author: UserId, id: Id, now: Time) {
    && entry.history != []
    && Last(entry.history) ==
         Version(id, author, entry.note.title, entry.note.body, entry.note.color, entry.note.visibility, now)
  }

  /** At most one version more, made by the caller now, showing the note as it is. */
  predicate Extends(before: Entry, after: Entry, author: UserId, id: Id, now: Time) {
    || after.history == before.history
    || (&& |after.history| == |before.history| + 1 && before.history <= after.history
        && AppendedBy(after, author, id, now))
  }

  /** What a step leaves of a note: a good history that only grew, the same owner, or nothing. */
  predicate HistoryKept(before: Entry, after: Option<Entry>, c: Call) {
    after.Some? ==>
      && GoodHistory(after.value)
      && Extends(before, after.value, c.caller.id, c.freshId, c.now)
      && after.value.note.owner == before.note.owner
  }

  /** The note is public and unlocked only if its newest version shows it. */
  predicate Synced(entry: Entry) {
    entry.history != [] && SameContent(Last(entry.history), entry.note)
  }

  predicate SyncKept(before: Entry, after: Option<Entry>) {
    before.note.visibility == PUBLIC && (before.note.lockedBy.None? ==> Synced(before)) ==>
      after.Some? && after.value.note.visibility == PUBLIC && after.value.note.lockedBy.None? ==>
        Synced(after.value)
  }

  /** A newer version unlike the last keeps a history in order and free of repeats. */
  lemma AppendKeeps(history: seq<Version>, v: Version)
    requires history != [] && Increasing(history) && NoRepeats(history)
    requires AllBefore(history, v.createdAt) && !SameSnapshot(Last(history), v)
    ensures Increasing(history + [v]) && NoRepeats(history + [v])
  {
    var longer := history + [v];
    forall i, j | 0 <= i < j < |longer| ensures longer[i].createdAt < longer[j].createdAt {
      assert history[i] in history;
    }
  }

  lemma RecordGood(entry: Entry, author: UserId, id: Id, now: Time)
    requires GoodHistory(entry) && DatedLater(entry, Some(RecordSession(entry, author, id, now)), now)
    ensures var after := RecordSession(entry, author, id, now);
      && GoodHistory(after) && after.note == entry.note
      && Extends(entry, after, author, id, now)
      && Synced(after)
  {
    LatestIsLast(entry.history);
    if RecordSession(entry, author, id, now) != entry {
      AppendKeeps(entry.history, Snapshot(entry.note, author, id, now));
    }
  }

  lemma BorrowedGood(id: Id, entry: Entry, changes: Changes, c: Call)
    requires GoodHistory(entry) && HasContent(changes)
    requires DatedLater(entry, BorrowedEdit(id, entry, changes, c).entry, c.now)
    ensures var o := BorrowedEdit(id, entry, changes, c);
      HistoryKept(entry, o.entry, c) && SyncKept(entry, o.entry)
  {
    var note, user, now := entry.note, c.caller.id, c.now;
    if !NeedsBorrowing(note, user, now) || Grantable(note, user, now) {
      var held := if NeedsBorrowing(note, user, now) then Acquired(note, user, now) else note;
      RecordGood(Entry(Applied(held, changes, now), entry.history), user, c.freshId, now);
    }
  }

  lemma UnlockGood(entry: Entry, c: Call)
    requires GoodHistory(entry) && DatedLater(entry, UnlockStep(entry, c).entry, c.now)
    ensures var o := UnlockStep(entry, c);
      HistoryKept(entry, o.entry, c) && SyncKept(entry, o.entry)
  {
    var released := entry.note.lockedBy == Some(c.caller.id);
    var freed := if released then entry.(note := Unlocked(entry.note)) else entry;
    if released || entry.note.visibility != PUBLIC {
      RecordGood(freed, c.caller.id, c.freshId, c.now);
    }
  }

  /** Every step keeps the history good, only adds at its end, and leaves no unlocked edit unversioned. */
  lemma StepKeepsHistory(id: Id, entry: Entry, c: Call)
    requires GoodHistory(entry) && DatedLater(entry, Step(id, Some(entry), c).entry, c.now)
    ensures var o := Step(id, Some(entry), c);
      HistoryKept(entry, o.entry, c) && SyncKept(entry, o.entry)
  {
    hide BorrowedEdit, UnlockStep, RecordSession, Latest;
    if !IsCreation(c.request) && !c.request.Delete? && !c.request.AgentDelete? && Readable(entry.note, c.caller.id) {
      match c.request {
        case Unlock => UnlockGood(entry, c);
        case Restore(versionId) =>
          var version := FindVersion(entry.history, versionId);
          if version.Some? {
            BorrowedGood(id, entry, RestoredChanges(version.value, entry.note, c.caller.id), c);
          }
        case AgentUpdate(title, body, color) =>
          var changes := Changes(title, body, color, None, None, None);
          if HasContent(changes) {
            BorrowedGood(id, entry, changes, c);
          }
        case Read =>
        case AgentGet =>
        case ListVersions =>
        case Patch(_) =>
        case Lock =>
        case AgentFlags(_, _) =>
      }
    }
  }

  /** In every run the history is good in every reachable state. */
  lemma {:induction false} RunsKeepHistory(id: Id, calls: seq<Call>)
    requires Timely(id, calls)
    ensures Exec(id, calls).entry.Some? ==> GoodHistory(Exec(id, calls).entry.value)
  {
    if calls != [] {
      var before, c := calls[..|calls| - 1], calls[|calls| - 1];
      RunsKeepHistory(id, before);
      if Exec(id, before).entry.Some? {
        StepKeepsHistory(id, Exec(id, before).entry.value, c);
      }
    }
  }

  lemma LastStepGrows(id: Id, calls: seq<Call>)
    requires Timely(id, calls) && calls != []
    requires Exec(id, calls[..|calls| - 1]).entry.Some? && Exec(id, calls).entry.Some?
    ensures Exec(id, calls[..|calls| - 1]).entry.value.history <= Exec(id, calls).entry.value.history
  {
    var before := calls[..|calls| - 1];
    RunsKeepHistory(id, before);
    StepKeepsHistory(id, Exec(id, before).entry.value, calls[|calls| - 1]);
  }

  lemma PrefixTrans(a: seq<Version>, b: seq<Version>, c: seq<Version>)
    requires a <= b <= c
    ensures a <= c
  {
  }

  /** Between any two moments of a run at which the note exists, the earlier history is a prefix of the later. */
  lemma {:induction false} HistoryOnlyGrows(id: Id, calls: seq<Call>, k: nat)
    requires Timely(id, calls) && k <= |calls|
    requires Exec(id, calls[..k]).entry.Some? && Exec(id, calls).entry.Some?
    ensures Exec(id, calls[..k]).entry.value.history <= Exec(id, calls).entry.value.history
    decreases |calls|
  {
    hide Exec;
    if k == |calls| {
      assert calls[..k] == calls;
    } else {
      var before := calls[..|calls| - 1];
      assert before[..k] == calls[..k];
      StaysGone(id, calls, k, |calls| - 1);
      HistoryOnlyGrows(id, before, k);
      LastStepGrows(id, calls);
      PrefixTrans(Exec(id, calls[..k]).entry.value.history, Exec(id, before).entry.value.history,
                  Exec(id, calls).entry.value.history);
    }
  }

  /** A note that exists at two moments existed at every moment between. */
  lemma StaysGone(id: Id, calls: seq<Call>, k: nat, m: nat)
    requires Timely(id, calls) && k <= m <= |calls|
    requires Exec(id, calls[..k]).entry.Some? && Exec(id, calls).entry.Some?
    ensures Exec(id, calls[..m]).entry.Some?
  {
    hide Exec;
    if Exec(id, calls[..m]).entry.None? {
      CreatedOnce(id, calls[..k]);
      GoneForever(id, calls, k, m, |calls|);
      assert calls[..|calls|] == calls;
    }
  }

  lemma {:induction false} CreatedOnce(id: Id, calls: seq<Call>)
    requires Exec(id, calls).entry.Some?
    ensures !NoCreation(calls)
  {
    if NoCreation(calls) {
      NothingBefore(id, calls);
    }
  }

  lemma {:induction false} TimelyPrefix(id: Id, calls: seq<Call>, k: nat)
    requires Timely(id, calls) && k <= |calls|
    ensures Timely(id, calls[..k])
    decreases |calls|
  {
    if k < |calls| {
      assert calls[..|calls| - 1][..k] == calls[..k];
      TimelyPrefix(id, calls[..|calls| - 1], k);
    } else {
      assert calls[..k] == calls;
    }
  }

  lemma GoneOnce(id: Id, calls: seq<Call>)
    requires Timely(id, calls) && calls != [] && !NoCreation(calls[..|calls| - 1])
    requires Exec(id, calls[..|calls| - 1]).entry.None?
    ensures Exec(id, calls).entry.None?
  {
  }

  lemma {:induction false} GoneForever(id: Id, calls: seq<Call>, k: nat, m: nat, n: nat)
    requires Timely(id, calls) && k <= m <= n <= |calls|
    requires !NoCreation(calls[..k]) && Exec(id, calls[..m]).entry.None?
    ensures Exec(id, calls[..n]).entry.None?
    decreases n
  {
    hide Exec, Timely;
    if m < n {
      GoneForever(id, calls, k, m, n - 1);
      TimelyPrefix(id, calls, n);
      assert calls[..n][..n - 1] == calls[..n - 1];
      var created :| created in calls[..k] && IsCreation(created.request);
      assert created in calls[..n - 1];
      GoneOnce(id, calls[..n]);
    }
  }

  // ----- What an unlock leaves behind -----

  /** The note was public at every moment of the run at which it existed. */
  predicate AlwaysPublic(id: Id, calls: seq<Call>) {
    forall k :: 0 <= k <= |calls| ==>
      var entry := Exec(id, calls[..k]).entry;
      entry.Some? ==> entry.value.note.visibility == PUBLIC
  }

  /** No edit of an always public note is left without a version once the note is unlocked. */
  lemma {:induction false} UnlockedMeansVersioned(id: Id, calls: seq<Call>)
    requires Timely(id, calls) && AlwaysPublic(id, calls)
    ensures var entry := Exec(id, calls).entry;
      entry.Some? && entry.value.note.lockedBy.None? ==> Synced(entry.value)
  {
    if calls != [] {
      var n := |calls| - 1;
      var before, c := calls[..n], calls[n];
      assert forall k :: 0 <= k <= n ==> before[..k] == calls[..k];
      assert calls[..n + 1] == calls;
      UnlockedMeansVersioned(id, before);
      RunsKeepHistory(id, before);
      if Exec(id, before).entry.Some? {
        StepKeepsHistory(id, Exec(id, before).entry.value, c);
      }
    }
  }

  // ----- Listing the history -----

  function Reversed(history: seq<Version>): seq<Version> {
    if history == [] then [] else [Last(history)] + Reversed(history[..|history| - 1])
  }

  lemma {:induction false} ReversedBelow(history: seq<Version>, now: Time)
    requires AllBefore(history, now)
    ensures Reversed(history) != [] ==> Reversed(history)[0].createdAt < now
  {
    if history != [] {
      assert Last(history) in history;
    }
  }

  /** The history page shows the versions in the reverse of the order they were appended. */
  lemma {:induction false} NewestFirstReverses(history: seq<Version>)
    requires Increasing(history)
    ensures NewestFirst(history) == Reversed(history)
  {
    if history != [] {
      var before := history[..|history| - 1];
      NewestFirstReverses(before);
      ReversedBelow(before, Last(history).createdAt);
    }
  }
}
