/** The confirm step of the Keep import: api/app/routers/import_keep.py. */
module ImportKeep {
  import opened Wrappers
  import opened Notes
  import opened Stores
  import Sequences

  datatype ImportedNote = ImportedNote(
    title: string, body: string, color: Color, createdAt: Time, updatedAt: Time, isTrashed: bool)

  /** One JSON file: its note, or the reason it could not be read. Its index is its position. */
  datatype File = Parsed(note: ImportedNote) | Failed(reason: string)

  datatype Summary = Summary(imported: nat, skipped: nat, failed: seq<nat>)

  type Content = (string, string)

  function ContentOf(note: ImportedNote): Content {
    (note.title, note.body)
  }

  /** What the owner already has: the dedup query over all of the owner's notes. */
  function OwnerContents(store: Store, owner: UserId): set<Content> {
    set id | id in store && store[id].note.owner == owner :: (store[id].note.title, store[id].note.body)
  }

  function NoteOf(note: ImportedNote, owner: UserId): Note {
    BlankNote(note.title, note.body, note.color, PRIVATE, owner, note.createdAt, note.updatedAt)
  }

  /** What the loop does with one file; `id` is the id of the note it may create. */
  function Confirm(file: File, index: nat, selected: set<int>, owner: UserId, id: Id,
                   store: Store, summary: Summary): (Store, Summary)
  {
    if index !in selected then (store, summary)
    else if file.Failed? then (store, summary.(failed := summary.failed + [index]))
    else if file.note.isTrashed then (store, summary)
    else if ContentOf(file.note) in OwnerContents(store, owner) then
      (store, summary.(skipped := summary.skipped + 1))
    else (store[id := NewEntry(NoteOf(file.note, owner), id)], summary.(imported := summary.imported + 1))
  }

  /** The store and the summary after the files from `index` on; `ids` are the fresh note ids, by index. */
  function Confirmed(files: seq<File>, index: nat, selected: set<int>, owner: UserId, ids: seq<Id>,
                     store: Store, summary: Summary): (Store, Summary)
    requires index <= |files| == |ids|
    decreases |files| - index
  {
    if index == |files| then (store, summary)
    else
      var next := Confirm(files[index], index, selected, owner, ids[index], store, summary);
      Confirmed(files, index + 1, selected, owner, ids, next.0, next.1)
  }

  const NOTHING := Summary(0, 0, [])

  /** Fresh ids: distinct, and none of them in the store. */
  predicate FreshIds(ids: seq<Id>, from: nat, store: Store) {
    && (forall i, j :: from <= i < j < |ids| ==> ids[i] != ids[j])
    && (forall i :: from <= i < |ids| ==> ids[i] !in store)
  }

  lemma ContentsGrow(store: Store, owner: UserId, id: Id, note: ImportedNote)
    requires id !in store
    ensures OwnerContents(store[id := NewEntry(NoteOf(note, owner), id)], owner) ==
            OwnerContents(store, owner) + {ContentOf(note)}
  {
    var next := store[id := NewEntry(NoteOf(note, owner), id)];
    forall content ensures content in OwnerContents(next, owner) <==>
                           content in OwnerContents(store, owner) + {ContentOf(note)} {
      if content == ContentOf(note) {
        assert id in next && next[id].note.owner == owner;
      } else if content in OwnerContents(store, owner) {
        var k :| k in store && store[k].note.owner == owner && (store[k].note.title, store[k].note.body) == content;
        assert k in next && next[k] == store[k];
      }
    }
  }

  /** The loop, with its batch set beside the query. */
  method ImportKeepNotes(files: seq<File>, selected: seq<int>, owner: UserId, ids: seq<Id>, given: Store)
      returns (store: Store, summary: Summary)
    requires |ids| == |files| && FreshIds(ids, 0, given)
    ensures (store, summary) == Confirmed(files, 0, (set i | i in selected), owner, ids, given, NOTHING)
  {
    var selectedSet := set i | i in selected;
    store := given;
    var imported, skipped := 0, 0;
    var failed: seq<nat> := [];
    var batch: set<Content> := {};
    for index := 0 to |files|
      invariant FreshIds(ids, index, store)
      invariant batch <= OwnerContents(store, owner)
      invariant Confirmed(files, index, selectedSet, owner, ids, store, Summary(imported, skipped, failed)) ==
                Confirmed(files, 0, selectedSet, owner, ids, given, NOTHING)
    {
      if index !in selectedSet {
        continue;
      }
      var file := files[index];
      if file.Failed? {
        failed := failed + [index];
        continue;
      }
      if file.note.isTrashed {
        continue;
      }
      var content := (file.note.title, file.note.body);
      var alreadyImported := exists id :: id in store && store[id].note.owner == owner
                               && store[id].note.title == file.note.title && store[id].note.body == file.note.body;
      assert alreadyImported <==> content in OwnerContents(store, owner);
      if content in batch || alreadyImported {
        skipped := skipped + 1;
        continue;
      }
      batch := batch + {content};
      ContentsGrow(store, owner, ids[index], file.note);
      store := store[ids[index] := NewEntry(NoteOf(file.note, owner), ids[index])];
      imported := imported + 1;
    }
    summary := Summary(imported, skipped, failed);
  }

  // ----- Accounting -----

  /** How many of the positions from `index` on are selected. */
  function SelectedFrom(n: nat, index: nat, selected: set<int>): nat
    requires index <= n
    decreases n - index
  {
    if index == n then 0 else (if index in selected then 1 else 0) + SelectedFrom(n, index + 1, selected)
  }

  function TrashedFrom(files: seq<File>, index: nat, selected: set<int>): nat
    requires index <= |files|
    decreases |files| - index
  {
    if index == |files| then 0
    else (if index in selected && files[index].Parsed? && files[index].note.isTrashed then 1 else 0)
         + TrashedFrom(files, index + 1, selected)
  }

  lemma {:induction false} Accounted(files: seq<File>, index: nat, selected: set<int>, owner: UserId, ids: seq<Id>,
                                     store: Store, summary: Summary)
    requires index <= |files| == |ids|
    ensures var r := Confirmed(files, index, selected, owner, ids, store, summary).1;
      SelectedFrom(|files|, index, selected) ==
      (r.imported - summary.imported) + (r.skipped - summary.skipped) + (|r.failed| - |summary.failed|)
      + TrashedFrom(files, index, selected)
    decreases |files| - index
  {
    if index < |files| {
      var file := files[index];
      if index !in selected || (file.Parsed? && file.note.isTrashed) {
        Accounted(files, index + 1, selected, owner, ids, store, summary);
      } else if file.Failed? {
        Accounted(files, index + 1, selected, owner, ids, store, summary.(failed := summary.failed + [index]));
      } else if ContentOf(file.note) in OwnerContents(store, owner) {
        Accounted(files, index + 1, selected, owner, ids, store, summary.(skipped := summary.skipped + 1));
      } else {
        Accounted(files, index + 1, selected, owner, ids,
                  store[ids[index] := NewEntry(NoteOf(file.note, owner), ids[index])],
                  summary.(imported := summary.imported + 1));
      }
    }
  }

  /** Every selected position of the archive is imported, skipped, failed, or trashed. */
  lemma EverySelectedFileIsAccountedFor(files: seq<File>, selected: set<int>, owner: UserId, ids: seq<Id>, store: Store)
    requires |files| == |ids|
    ensures var r := Confirmed(files, 0, selected, owner, ids, store, NOTHING).1;
      |(set i | 0 <= i < |files| && i in selected)| ==
      r.imported + r.skipped + |r.failed| + TrashedFrom(files, 0, selected)
  {
    Accounted(files, 0, selected, owner, ids, store, NOTHING);
    SelectedCounts(|files|, 0, selected);
  }

  lemma {:induction false} SelectedCounts(n: nat, index: nat, selected: set<int>)
    requires index <= n
    ensures SelectedFrom(n, index, selected) == |(set i | index <= i < n && i in selected)|
    decreases n - index
  {
    var here := set i | index <= i < n && i in selected;
    if index < n {
      SelectedCounts(n, index + 1, selected);
      var rest := set i | index + 1 <= i < n && i in selected;
      assert here == if index in selected then rest + {index} else rest;
    } else {
      assert here == {};
    }
  }

  // ----- What is created -----

  /** Two notes of the owner with the same title and body are both older than the import. */
  predicate NewAreDistinct(store: Store, before: Store, owner: UserId) {
    forall a, b |
      a in store && b in store && a != b && a !in before && store[a].note.owner == owner && store[b].note.owner == owner ::
      (store[a].note.title, store[a].note.body) != (store[b].note.title, store[b].note.body)
  }

  predicate OnlyPrivateNew(store: Store, before: Store, owner: UserId) {
    && (forall id :: id in before ==> id in store && store[id] == before[id])
    && (forall id :: id in store && id !in before ==>
          var note := store[id].note;
          && note.owner == owner && note.visibility == PRIVATE && note.lockedBy.None?
          && |store[id].history| == 1
          && store[id].history[0] == Snapshot(note, owner, id, note.createdAt))
  }

  lemma OneMore(store: Store, before: Store, owner: UserId, id: Id, note: ImportedNote)
    requires id !in store && before.Keys <= store.Keys && ContentOf(note) !in OwnerContents(store, owner)
    requires NewAreDistinct(store, before, owner) && OnlyPrivateNew(store, before, owner)
    ensures var next := store[id := NewEntry(NoteOf(note, owner), id)];
      NewAreDistinct(next, before, owner) && OnlyPrivateNew(next, before, owner)
  {
    var next := store[id := NewEntry(NoteOf(note, owner), id)];
    forall k | k in store && store[k].note.owner == owner
      ensures (next[k].note.title, next[k].note.body) != ContentOf(note) {
      assert (store[k].note.title, store[k].note.body) in OwnerContents(store, owner);
    }
    assert (next[id].note.title, next[id].note.body) == ContentOf(note);
  }

  lemma {:induction false} CreatedNotes(files: seq<File>, index: nat, selected: set<int>, owner: UserId, ids: seq<Id>,
                                        store: Store, summary: Summary, before: Store)
    requires index <= |files| == |ids| && FreshIds(ids, index, store)
    requires NewAreDistinct(store, before, owner) && OnlyPrivateNew(store, before, owner)
    requires before.Keys <= store.Keys
    ensures var after := Confirmed(files, index, selected, owner, ids, store, summary).0;
      NewAreDistinct(after, before, owner) && OnlyPrivateNew(after, before, owner)
    decreases |files| - index
  {
    hide NewAreDistinct, OnlyPrivateNew, OwnerContents, NewEntry, NoteOf;
    if index < |files| {
      var file := files[index];
      if index !in selected || (file.Parsed? && file.note.isTrashed) {
        CreatedNotes(files, index + 1, selected, owner, ids, store, summary, before);
      } else if file.Failed? {
        CreatedNotes(files, index + 1, selected, owner, ids, store, summary.(failed := summary.failed + [index]), before);
      } else if ContentOf(file.note) in OwnerContents(store, owner) {
        CreatedNotes(files, index + 1, selected, owner, ids, store, summary.(skipped := summary.skipped + 1), before);
      } else {
        var next := store[ids[index] := NewEntry(NoteOf(file.note, owner), ids[index])];
        OneMore(store, before, owner, ids[index], file.note);
        CreatedNotes(files, index + 1, selected, owner, ids, next, summary.(imported := summary.imported + 1), before);
      }
    }
  }

  /** An import creates private notes of the owner, each with its root, no two alike and none the owner had. */
  lemma ImportCreatesNewContent(files: seq<File>, selected: set<int>, owner: UserId, ids: seq<Id>, store: Store)
    requires |files| == |ids| && FreshIds(ids, 0, store)
    ensures var after := Confirmed(files, 0, selected, owner, ids, store, NOTHING).0;
      NewAreDistinct(after, store, owner) && OnlyPrivateNew(after, store, owner)
  {
    CreatedNotes(files, 0, selected, owner, ids, store, NOTHING, store);
  }

  /** Each creation is the store's own import step, so what every run keeps holds of imported notes too. */
  lemma CreationIsAStep(store: Store, owner: Caller, id: Id, note: ImportedNote, now: Time)
    requires id !in store
    ensures StepAll(store, Target(id, Call(owner, Import(note.title, note.body, note.color, note.createdAt, note.updatedAt), now, id)))
            == store[id := NewEntry(NoteOf(note, owner.id), id)]
  {
  }

  // ----- What the summary says -----

  /** The selected files from `index` on that could not be read, in order. */
  function FailedFrom(files: seq<File>, index: nat, selected: set<int>): (r: seq<nat>)
    requires index <= |files|
    ensures forall i :: i in r <==> index <= i < |files| && i in selected && files[i].Failed?
    ensures forall j, k :: 0 <= j < k < |r| ==> r[j] < r[k]
    decreases |files| - index
  {
    if index == |files| then []
    else
      var rest := FailedFrom(files, index + 1, selected);
      assert forall k :: 0 <= k < |rest| ==> rest[k] in rest;
      if index in selected && files[index].Failed? then [index] + rest else rest
  }

  lemma FreshNext(ids: seq<Id>, index: nat, store: Store, next: Store)
    requires index < |ids| && FreshIds(ids, index, store)
    requires next.Keys == store.Keys || next.Keys == store.Keys + {ids[index]}
    ensures ids[index] !in store && FreshIds(ids, index + 1, next)
  {
    assert forall id :: id in next ==> id in store || id == ids[index];
  }

  lemma ConfirmCounts(file: File, index: nat, selected: set<int>, owner: UserId, id: Id, store: Store, summary: Summary)
    ensures var r := Confirm(file, index, selected, owner, id, store, summary);
      || (r.0.Keys == store.Keys && r.1.imported == summary.imported)
      || (r.0.Keys == store.Keys + {id} && r.1.imported == summary.imported + 1)
  {
    hide OwnerContents, NewEntry, NoteOf;
  }

  lemma {:induction false} CountIsExact(files: seq<File>, index: nat, selected: set<int>, owner: UserId, ids: seq<Id>,
                                        store: Store, summary: Summary)
    requires index <= |files| == |ids| && FreshIds(ids, index, store)
    ensures var r := Confirmed(files, index, selected, owner, ids, store, summary);
      store.Keys <= r.0.Keys && |r.0.Keys| + summary.imported == |store.Keys| + r.1.imported
    decreases |files| - index
  {
    hide Confirm, FreshIds;
    if index < |files| {
      var next := Confirm(files[index], index, selected, owner, ids[index], store, summary);
      ConfirmCounts(files[index], index, selected, owner, ids[index], store, summary);
      FreshNext(ids, index, store, next.0);
      CountIsExact(files, index + 1, selected, owner, ids, next.0, next.1);
    }
  }

  lemma {:induction false} FailedAreExact(files: seq<File>, index: nat, selected: set<int>, owner: UserId, ids: seq<Id>,
                                          store: Store, summary: Summary)
    requires index <= |files| == |ids|
    ensures Confirmed(files, index, selected, owner, ids, store, summary).1.failed ==
            summary.failed + FailedFrom(files, index, selected)
    decreases |files| - index
  {
    hide OwnerContents, FailedFrom, Confirm;
    if index == |files| {
      FailedNone(files, selected);
      assert summary.failed + [] == summary.failed;
    } else {
      var next := Confirm(files[index], index, selected, owner, ids[index], store, summary);
      ConfirmFails(files[index], index, selected, owner, ids[index], store, summary);
      FailedStep(files, index, selected);
      FailedAreExact(files, index + 1, selected, owner, ids, next.0, next.1);
      Sequences.Associate(summary.failed, if index in selected && files[index].Failed? then [index] else [],
                          FailedFrom(files, index + 1, selected));
    }
  }

  lemma ConfirmFails(file: File, index: nat, selected: set<int>, owner: UserId, id: Id, store: Store, summary: Summary)
    ensures Confirm(file, index, selected, owner, id, store, summary).1.failed ==
            summary.failed + (if index in selected && file.Failed? then [index] else [])
  {
    assert summary.failed + [] == summary.failed;
  }

  lemma FailedNone(files: seq<File>, selected: set<int>)
    ensures FailedFrom(files, |files|, selected) == []
  {
  }

  lemma FailedStep(files: seq<File>, index: nat, selected: set<int>)
    requires index < |files|
    ensures FailedFrom(files, index, selected) ==
            (if index in selected && files[index].Failed? then [index] else []) + FailedFrom(files, index + 1, selected)
  {
    assert [] + FailedFrom(files, index + 1, selected) == FailedFrom(files, index + 1, selected);
  }

  lemma SizeOfDifference<T>(a: set<T>, b: set<T>)
    requires a <= b
    ensures |b - a| == |b| - |a|
  {
    assert b == a + (b - a);
  }

  /** `imported` counts the notes created, `failed` lists exactly the selected unreadable files, in order. */
  lemma SummaryTellsWhatHappened(files: seq<File>, selected: set<int>, owner: UserId, ids: seq<Id>, store: Store)
    requires |files| == |ids| && FreshIds(ids, 0, store)
    ensures var r := Confirmed(files, 0, selected, owner, ids, store, NOTHING);
      && r.1.imported == |r.0.Keys - store.Keys|
      && (forall i :: i in r.1.failed <==> 0 <= i < |files| && i in selected && files[i].Failed?)
      && (forall j, k :: 0 <= j < k < |r.1.failed| ==> r.1.failed[j] < r.1.failed[k])
  {
    CountIsExact(files, 0, selected, owner, ids, store, NOTHING);
    FailedAreExact(files, 0, selected, owner, ids, store, NOTHING);
    var r := Confirmed(files, 0, selected, owner, ids, store, NOTHING);
    SizeOfDifference(store.Keys, r.0.Keys);
    assert [] + FailedFrom(files, 0, selected) == FailedFrom(files, 0, selected);
  }

  /** The note made of a file: its title, body, color and dates, private, nobody editing it. */
  predicate MadeOf(entry: Entry, note: ImportedNote, owner: UserId) {
    && entry.note.title == note.title && entry.note.body == note.body && entry.note.color == note.color
    && entry.note.createdAt == note.createdAt && entry.note.updatedAt == note.updatedAt
    && entry.note.owner == owner && entry.note.visibility == PRIVATE
    && !entry.note.pinned && !entry.note.archived && entry.note.lockedBy.None?
    && |entry.history| == 1 && entry.history[0].createdAt == note.createdAt && entry.history[0].author == owner
  }

  /** A file whose note may be created: selected, readable, not trashed. */
  predicate Eligible(files: seq<File>, i: int, selected: set<int>) {
    0 <= i < |files| && i in selected && files[i].Parsed? && !files[i].note.isTrashed
  }

  ghost predicate EachMadeOfAFile(files: seq<File>, selected: set<int>, owner: UserId, ids: seq<Id>, before: Store, after: Store)
    requires |files| == |ids|
  {
    forall id :: id in after && id !in before ==>
      exists i :: Eligible(files, i, selected) && ids[i] == id && MadeOf(after[id], files[i].note, owner)
  }

  lemma {:induction false} CreatedFromFiles(files: seq<File>, index: nat, selected: set<int>, owner: UserId, ids: seq<Id>,
                                            store: Store, summary: Summary, before: Store)
    requires index <= |files| == |ids| && FreshIds(ids, index, store)
    requires EachMadeOfAFile(files, selected, owner, ids, before, store)
    ensures EachMadeOfAFile(files, selected, owner, ids, before,
                            Confirmed(files, index, selected, owner, ids, store, summary).0)
    decreases |files| - index
  {
    hide EachMadeOfAFile, OwnerContents, NewEntry, NoteOf;
    if index < |files| {
      var file := files[index];
      if index !in selected || (file.Parsed? && file.note.isTrashed) {
        CreatedFromFiles(files, index + 1, selected, owner, ids, store, summary, before);
      } else if file.Failed? {
        CreatedFromFiles(files, index + 1, selected, owner, ids, store, summary.(failed := summary.failed + [index]), before);
      } else if ContentOf(file.note) in OwnerContents(store, owner) {
        CreatedFromFiles(files, index + 1, selected, owner, ids, store, summary.(skipped := summary.skipped + 1), before);
      } else {
        var next := store[ids[index] := NewEntry(NoteOf(file.note, owner), ids[index])];
        OneMoreFile(files, index, selected, owner, ids, store, before);
        CreatedFromFiles(files, index + 1, selected, owner, ids, next, summary.(imported := summary.imported + 1), before);
      }
    }
  }

  lemma OneMoreFile(files: seq<File>, index: nat, selected: set<int>, owner: UserId, ids: seq<Id>, store: Store, before: Store)
    requires |files| == |ids| && Eligible(files, index, selected)
    requires EachMadeOfAFile(files, selected, owner, ids, before, store)
    ensures EachMadeOfAFile(files, selected, owner, ids, before,
                            store[ids[index] := NewEntry(NoteOf(files[index].note, owner), ids[index])])
  {
    var entry := NewEntry(NoteOf(files[index].note, owner), ids[index]);
    assert MadeOf(entry, files[index].note, owner);
  }

  /** The owner has a note with this title and body. */
  predicate OwnedBy(store: Store, owner: UserId, note: ImportedNote) {
    exists id :: id in store && store[id].note.owner == owner
                 && store[id].note.title == note.title && store[id].note.body == note.body
  }

  /** Every created note is made of a selected file, and every such file's content is then the owner's. */
  lemma SelectedFilesBecomeNotes(files: seq<File>, selected: set<int>, owner: UserId, ids: seq<Id>, store: Store)
    requires |files| == |ids| && FreshIds(ids, 0, store)
    ensures var after := Confirmed(files, 0, selected, owner, ids, store, NOTHING).0;
      && EachMadeOfAFile(files, selected, owner, ids, store, after)
      && (forall i :: Eligible(files, i, selected) ==> OwnedBy(after, owner, files[i].note))
  {
    CreatedFromFiles(files, 0, selected, owner, ids, store, NOTHING, store);
    ImportMakesKnown(files, 0, selected, owner, ids, store, NOTHING);
    var after := Confirmed(files, 0, selected, owner, ids, store, NOTHING).0;
    forall i | Eligible(files, i, selected)
      ensures OwnedBy(after, owner, files[i].note)
    {
      assert ContentOf(files[i].note) in OwnerContents(after, owner);
    }
  }

  // ----- Importing again -----

  /** Every selected readable note, from `index` on, is already there. */
  predicate AllKnown(files: seq<File>, index: nat, selected: set<int>, known: set<Content>)
    requires index <= |files|
  {
    forall i :: index <= i < |files| && i in selected && files[i].Parsed? && !files[i].note.isTrashed ==>
      ContentOf(files[i].note) in known
  }

  lemma {:induction false} ImportMakesKnown(files: seq<File>, index: nat, selected: set<int>, owner: UserId, ids: seq<Id>,
                                            store: Store, summary: Summary)
    requires index <= |files| == |ids| && FreshIds(ids, index, store)
    ensures var after := Confirmed(files, index, selected, owner, ids, store, summary).0;
      && AllKnown(files, index, selected, OwnerContents(after, owner))
      && OwnerContents(store, owner) <= OwnerContents(after, owner)
    decreases |files| - index
  {
    if index < |files| {
      var file := files[index];
      if index !in selected || (file.Parsed? && file.note.isTrashed) {
        ImportMakesKnown(files, index + 1, selected, owner, ids, store, summary);
      } else if file.Failed? {
        ImportMakesKnown(files, index + 1, selected, owner, ids, store, summary.(failed := summary.failed + [index]));
      } else if ContentOf(file.note) in OwnerContents(store, owner) {
        ImportMakesKnown(files, index + 1, selected, owner, ids, store, summary.(skipped := summary.skipped + 1));
      } else {
        ContentsGrow(store, owner, ids[index], file.note);
        ImportMakesKnown(files, index + 1, selected, owner, ids,
                         store[ids[index] := NewEntry(NoteOf(file.note, owner), ids[index])],
                         summary.(imported := summary.imported + 1));
      }
    }
  }

  /** When all is known, an import creates nothing and skips what another import would import or skip. */
  lemma {:induction false} KnownIsSkipped(files: seq<File>, index: nat, selected: set<int>, owner: UserId,
                                          ids: seq<Id>, store: Store, summary: Summary,
                                          otherIds: seq<Id>, other: Store, otherSummary: Summary)
    requires index <= |files| == |ids| == |otherIds|
    requires AllKnown(files, index, selected, OwnerContents(store, owner))
    ensures var r := Confirmed(files, index, selected, owner, ids, store, summary);
      var first := Confirmed(files, index, selected, owner, otherIds, other, otherSummary).1;
      && r.0 == store && r.1.imported == summary.imported
      && r.1.skipped - summary.skipped ==
         (first.imported - otherSummary.imported) + (first.skipped - otherSummary.skipped)
      && (summary.failed == otherSummary.failed ==> r.1.failed == first.failed)
    decreases |files| - index
  {
    if index < |files| {
      var file := files[index];
      if index !in selected || (file.Parsed? && file.note.isTrashed) {
        KnownIsSkipped(files, index + 1, selected, owner, ids, store, summary, otherIds, other, otherSummary);
      } else if file.Failed? {
        KnownIsSkipped(files, index + 1, selected, owner, ids, store, summary.(failed := summary.failed + [index]),
                       otherIds, other, otherSummary.(failed := otherSummary.failed + [index]));
      } else if ContentOf(file.note) in OwnerContents(other, owner) {
        KnownIsSkipped(files, index + 1, selected, owner, ids, store, summary.(skipped := summary.skipped + 1),
                       otherIds, other, otherSummary.(skipped := otherSummary.skipped + 1));
      } else {
        KnownIsSkipped(files, index + 1, selected, owner, ids, store, summary.(skipped := summary.skipped + 1),
                       otherIds, other[otherIds[index] := NewEntry(NoteOf(file.note, owner), otherIds[index])],
                       otherSummary.(imported := otherSummary.imported + 1));
      }
    }
  }

  /** Running the same import again changes nothing and skips exactly what the first imported or skipped. */
  lemma ImportIsIdempotent(files: seq<File>, selected: set<int>, owner: UserId, ids: seq<Id>, again: seq<Id>, store: Store)
    requires |files| == |ids| == |again| && FreshIds(ids, 0, store)
    ensures var first := Confirmed(files, 0, selected, owner, ids, store, NOTHING);
      var second := Confirmed(files, 0, selected, owner, again, first.0, NOTHING);
      && second.0 == first.0
      && second.1 == Summary(0, first.1.imported + first.1.skipped, first.1.failed)
  {
    ImportMakesKnown(files, 0, selected, owner, ids, store, NOTHING);
    var after := Confirmed(files, 0, selected, owner, ids, store, NOTHING).0;
    KnownIsSkipped(files, 0, selected, owner, again, after, NOTHING, ids, store, NOTHING);
  }
}
