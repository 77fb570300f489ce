/** The cached board and its optimistic updates: web/src/lib/boardCache.ts and web/src/pages/BoardPage.tsx. */
module Boards {
  import opened Wrappers
  import opened Notes
  import opened Stores

  // ----- sortNotes, by modification -----

  /** A stable sort: `view` goes before the first element it may precede. */
  function InsertView(view: View, sorted: seq<View>): seq<View> {
    if sorted == [] || InOrder(view, sorted[0]) then [view] + sorted
    else [sorted[0]] + InsertView(view, sorted[1..])
  }

  function SortNotes(list: seq<View>): seq<View> {
    if list == [] then [] else InsertView(list[0], SortNotes(list[1..]))
  }

  predicate SameElements(a: seq<View>, b: seq<View>) {
    (forall view :: view in a ==> view in b) && (forall view :: view in b ==> view in a)
  }

  /** No two notes of the list were last modified at the same instant. */
  predicate DistinctDates(list: seq<View>) {
    forall i, j :: 0 <= i < j < |list| ==> list[i].updatedAt != list[j].updatedAt
  }

  predicate DateIn(date: Time, list: seq<View>) {
    exists view :: view in list && view.updatedAt == date
  }

  lemma {:induction false} InsertElements(view: View, sorted: seq<View>)
    ensures forall v :: v in InsertView(view, sorted) <==> v == view || v in sorted
    ensures InsertView(view, sorted) != []
    ensures InsertView(view, sorted)[0] == view || (sorted != [] && InsertView(view, sorted)[0] == sorted[0])
  {
    if sorted != [] && !InOrder(view, sorted[0]) {
      InsertElements(view, sorted[1..]);
      assert sorted == [sorted[0]] + sorted[1..];
    }
  }

  lemma SortedCons(view: View, list: seq<View>)
    requires Sorted(list) && forall v :: v in list ==> InOrder(view, v)
    ensures Sorted([view] + list)
  {
  }

  lemma {:induction false} InsertSorted(view: View, sorted: seq<View>)
    requires Sorted(sorted)
    ensures Sorted(InsertView(view, sorted))
  {
    if sorted != [] {
      assert forall v :: v in sorted ==> InOrder(sorted[0], v);
      if InOrder(view, sorted[0]) {
        SortedCons(view, sorted);
      } else {
        InsertSorted(view, sorted[1..]);
        InsertElements(view, sorted[1..]);
        assert forall v :: v in sorted[1..] ==> v in sorted;
        SortedCons(sorted[0], InsertView(view, sorted[1..]));
      }
    }
  }

  lemma {:induction false} InsertDistinct(view: View, sorted: seq<View>)
    requires DistinctDates(sorted) && !DateIn(view.updatedAt, sorted)
    ensures DistinctDates(InsertView(view, sorted))
  {
    if sorted != [] {
      assert forall v :: v in sorted[1..] ==> v in sorted;
      assert sorted[0] in sorted;
      if !InOrder(view, sorted[0]) {
        InsertDistinct(view, sorted[1..]);
        InsertElements(view, sorted[1..]);
        var tail := InsertView(view, sorted[1..]);
        forall k | 0 <= k < |tail| ensures tail[k].updatedAt != sorted[0].updatedAt {
          assert tail[k] in tail;
        }
      }
    }
  }

  lemma {:induction false} InsertDistinctIds(view: View, sorted: seq<View>)
    requires Stores.DistinctIds(sorted) && forall v :: v in sorted ==> v.id != view.id
    ensures Stores.DistinctIds(InsertView(view, sorted))
  {
    if sorted != [] && !InOrder(view, sorted[0]) {
      var tail := InsertView(view, sorted[1..]);
      assert sorted[0] in sorted && forall v :: v in sorted[1..] ==> v in sorted;
      InsertDistinctIds(view, sorted[1..]);
      InsertElements(view, sorted[1..]);
      forall k | 0 <= k < |tail| ensures tail[k].id != sorted[0].id {
        assert tail[k] in tail;
      }
    }
  }

  /** Sorting keeps the elements and puts them in order. */
  lemma {:induction false} SortSpec(list: seq<View>)
    ensures Sorted(SortNotes(list)) && SameElements(SortNotes(list), list)
    ensures DistinctDates(list) ==> DistinctDates(SortNotes(list))
  {
    if list != [] {
      SortSpec(list[1..]);
      InsertSorted(list[0], SortNotes(list[1..]));
      InsertElements(list[0], SortNotes(list[1..]));
      assert list == [list[0]] + list[1..];
      if DistinctDates(list) {
        InsertDistinct(list[0], SortNotes(list[1..]));
      }
    }
  }

  lemma {:induction false} InsertOnce(view: View, sorted: seq<View>)
    ensures multiset(InsertView(view, sorted)) == multiset(sorted) + multiset{view}
  {
    if sorted != [] && !InOrder(view, sorted[0]) {
      InsertOnce(view, sorted[1..]);
      assert sorted == [sorted[0]] + sorted[1..];
    }
  }

  lemma {:induction false} SortsOnce(list: seq<View>)
    ensures multiset(SortNotes(list)) == multiset(list)
  {
    if list != [] {
      SortsOnce(list[1..]);
      InsertOnce(list[0], SortNotes(list[1..]));
      assert list == [list[0]] + list[1..];
    }
  }

  /** By modification: no note lost or doubled, no pinned one after another, newest first among both. */
  lemma SortsByModification(list: seq<View>)
    ensures var r := SortNotes(list);
      && multiset(r) == multiset(list)
      && forall i, j :: 0 <= i < j < |r| ==>
           (r[j].pinned ==> r[i].pinned) && (r[i].pinned == r[j].pinned ==> r[i].updatedAt >= r[j].updatedAt)
  {
    SortSpec(list);
    SortsOnce(list);
    var r := SortNotes(list);
    assert forall i, j :: 0 <= i < j < |r| ==> InOrder(r[i], r[j]);
  }

  /** With distinct dates the order leaves no choice. */
  lemma {:induction false} SortedIsUnique(a: seq<View>, b: seq<View>)
    requires Sorted(a) && Sorted(b) && SameElements(a, b) && DistinctDates(a) && DistinctDates(b)
    ensures a == b
  {
    assert b != [] ==> b[0] in b;
    if a != [] {
      assert a[0] in b && b != [] && b[0] in a;
      var i :| 0 <= i < |a| && a[i] == b[0];
      var j :| 0 <= j < |b| && b[j] == a[0];
      assert a[0] == b[0];
      forall view | view in a[1..] ensures view in b[1..] {
        var k :| 1 <= k < |a| && a[k] == view;
        assert view in a && view in b;
      }
      forall view | view in b[1..] ensures view in a[1..] {
        var k :| 1 <= k < |b| && b[k] == view;
        assert view in b && view in a;
      }
      SortedIsUnique(a[1..], b[1..]);
    }
  }

  // ----- The cache's transforms -----

  /** `list.map((n) => (n.id === id ? … : n))`; also what `upsertCachedNote` does where ids are distinct. */
  function Replaced(list: seq<View>, note: View): seq<View> {
    if list == [] then []
    else [if list[0].id == note.id then note else list[0]] + Replaced(list[1..], note)
  }

  /** `list.filter((n) => n.id !== id)` */
  function Without(list: seq<View>, id: Id): seq<View> {
    if list == [] then [] else (if list[0].id == id then [] else [list[0]]) + Without(list[1..], id)
  }

  /** `{ ...note, ...patch }` for a pin or archive patch. */
  function Organized(view: View, changes: Changes): View {
    view.(pinned := Or(changes.pinned, view.pinned), archived := Or(changes.archived, view.archived))
  }

  /** What `onOrganize` makes of the cached list. */
  function Optimistic(list: seq<View>, target: View, changes: Changes): seq<View> {
    if changes.archived.Some? then Without(list, target.id) else Replaced(list, Organized(target, changes))
  }

  lemma {:induction false} ReplacedAt(list: seq<View>, note: View)
    ensures |Replaced(list, note)| == |list|
    ensures forall i :: 0 <= i < |list| ==> Replaced(list, note)[i] == if list[i].id == note.id then note else list[i]
  {
    if list != [] {
      ReplacedAt(list[1..], note);
    }
  }

  lemma {:induction false} WithoutElements(list: seq<View>, id: Id)
    ensures forall v :: v in Without(list, id) <==> v in list && v.id != id
  {
    if list != [] {
      WithoutElements(list[1..], id);
      assert list == [list[0]] + list[1..];
    }
  }

  lemma {:induction false} WithoutDistinct(list: seq<View>, id: Id)
    requires DistinctDates(list)
    ensures DistinctDates(Without(list, id))
  {
    if list != [] {
      WithoutDistinct(list[1..], id);
      WithoutElements(list[1..], id);
      assert forall v :: v in list[1..] ==> v.updatedAt != list[0].updatedAt;
    }
  }

  // ----- Optimistic updates agree with a refetch -----

  /** The same notes, but for the one with this id. */
  predicate SameElsewhere(before: Store, after: Store, id: Id) {
    && (forall k :: k in before && k != id ==> k in after && after[k] == before[k])
    && (forall k :: k in after && k != id ==> k in before)
  }

  lemma ReplacedIsShown(before: Store, after: Store, user: UserId, board: Board,
                        list: seq<View>, id: Id, refetched: seq<View>, view: View)
    requires Shows(before, user, board, list) && Shows(after, user, board, refetched)
    requires SameElsewhere(before, after, id) && id in after && OnBoard(after[id].note, user, board)
    requires view in Replaced(list, ViewOf(id, after[id].note))
    ensures view in refetched
  {
    var updated := Replaced(list, ViewOf(id, after[id].note));
    ReplacedAt(list, ViewOf(id, after[id].note));
    var i :| 0 <= i < |updated| && updated[i] == view;
    assert list[i] in list;
  }

  lemma ShownIsReplaced(before: Store, after: Store, user: UserId, board: Board,
                        list: seq<View>, id: Id, refetched: seq<View>, view: View)
    requires Shows(before, user, board, list) && Shows(after, user, board, refetched)
    requires SameElsewhere(before, after, id)
    requires id in before && id in after && OnBoard(before[id].note, user, board)
    requires view in refetched
    ensures view in Replaced(list, ViewOf(id, after[id].note))
  {
    var updated := Replaced(list, ViewOf(id, after[id].note));
    var was := ViewOf(view.id, before[view.id].note);
    ReplacedAt(list, ViewOf(id, after[id].note));
    assert was in list;
    var i :| 0 <= i < |list| && list[i] == was;
    assert updated[i] == view;
  }

  /** A note that stays on the board: putting its new view in the cached list, sorted, is a refetch. */
  lemma ReplacedEqualsRefetch(before: Store, after: Store, user: UserId, board: Board,
                              list: seq<View>, id: Id, refetched: seq<View>)
    requires IsListing(before, user, board, list) && IsListing(after, user, board, refetched)
    requires SameElsewhere(before, after, id)
    requires id in before && id in after && OnBoard(before[id].note, user, board) && OnBoard(after[id].note, user, board)
    requires DistinctDates(refetched) && DistinctDates(Replaced(list, ViewOf(id, after[id].note)))
    ensures SortNotes(Replaced(list, ViewOf(id, after[id].note))) == refetched
  {
    hide Shows, SameElsewhere, OnBoard, Sorted, DistinctDates, Replaced;
    var updated := Replaced(list, ViewOf(id, after[id].note));
    forall view | view in updated ensures view in refetched {
      ReplacedIsShown(before, after, user, board, list, id, refetched, view);
    }
    forall view | view in refetched ensures view in updated {
      ShownIsReplaced(before, after, user, board, list, id, refetched, view);
    }
    SortSpec(updated);
    SortedIsUnique(SortNotes(updated), refetched);
  }

  /** A note that leaves the board: dropping it from the cached list is a refetch. */
  lemma WithoutEqualsRefetch(before: Store, after: Store, user: UserId, board: Board,
                             list: seq<View>, id: Id, refetched: seq<View>)
    requires IsListing(before, user, board, list) && IsListing(after, user, board, refetched)
    requires SameElsewhere(before, after, id)
    requires id in after ==> !OnBoard(after[id].note, user, board)
    requires DistinctDates(list)
    ensures SortNotes(Without(list, id)) == refetched
  {
    var kept := Without(list, id);
    WithoutElements(list, id);
    WithoutDistinct(list, id);
    forall view | view in kept ensures view in refetched {
      assert view in list;
    }
    forall view | view in refetched ensures view in kept {
      assert view.id != id;
      assert ViewOf(view.id, before[view.id].note) in list;
    }
    SortSpec(kept);
    DatesCarryOver(kept, refetched);
    SortedIsUnique(SortNotes(kept), refetched);
  }

  /** Lists with distinct ids and the same elements have distinct dates together. */
  lemma DatesCarryOver(a: seq<View>, b: seq<View>)
    requires DistinctDates(a) && Stores.DistinctIds(b) && SameElements(a, b)
    ensures DistinctDates(b)
  {
    forall i, j | 0 <= i < j < |b| ensures b[i].updatedAt != b[j].updatedAt {
      assert b[i] in a && b[j] in a;
    }
  }

  function ArchivedView(board: Board): bool {
    match board
    case Mine(archived) => archived
    case Public => false
  }

  predicate PinOrArchiveOnly(changes: Changes) {
    !HasContent(changes) && (changes.pinned.Some? || changes.archived.Some?)
  }

  lemma OrganizedStore(store: Store, target: View, changes: Changes, c: Call)
    requires PinOrArchiveOnly(changes) && c.request == Patch(changes)
    requires target.id in store && target == ViewOf(target.id, store[target.id].note) && target.owner == c.caller.id
    ensures var after := StepAll(store, Target(target.id, c));
      && SameElsewhere(store, after, target.id) && target.id in after
      && after[target.id].note == Applied(store[target.id].note, changes, c.now)
      && ViewOf(target.id, after[target.id].note) == Organized(target, changes)
  {
    var note := store[target.id].note;
    assert StepAll(store, Target(target.id, c)) ==
           store[target.id := store[target.id].(note := Applied(note, changes, c.now))];
  }

  lemma PinnedEqualsRefetch(store: Store, board: Board, list: seq<View>, target: View,
                            changes: Changes, c: Call, refetched: seq<View>)
    requires PinOrArchiveOnly(changes) && changes.archived.None? && c.request == Patch(changes)
    requires IsListing(store, c.caller.id, board, list) && DistinctDates(list) && target in list
    requires target.owner == c.caller.id
    requires IsListing(StepAll(store, Target(target.id, c)), c.caller.id, board, refetched)
    ensures SortNotes(Replaced(list, Organized(target, changes))) == refetched
  {
    var user, id, organized := c.caller.id, target.id, Organized(target, changes);
    var after := StepAll(store, Target(id, c));
    OrganizedStore(store, target, changes, c);
    hide StepAll, Sorted, Shows, IsListing, SameElsewhere, DistinctDates;
    assert DistinctDates(Replaced(list, organized)) by {
      ListedOnce(store, user, board, list);
      ReplacedDates(list, target, organized);
    }
    PinnedDates(store, after, user, board, list, target, organized, refetched);
    ReplacedEqualsRefetch(store, after, user, board, list, id, refetched);
  }

  lemma ListedOnce(store: Store, user: UserId, board: Board, list: seq<View>)
    requires IsListing(store, user, board, list)
    ensures Stores.DistinctIds(list)
    ensures forall view :: view in list ==>
              view.id in store && OnBoard(store[view.id].note, user, board) && view == ViewOf(view.id, store[view.id].note)
  {
  }

  /** The owner of a shown note pins or archives it, and `refetched` is what the server would then list. */
  predicate Organizing(store: Store, board: Board, list: seq<View>, target: View,
                       changes: Changes, c: Call, refetched: seq<View>)
  {
    && PinOrArchiveOnly(changes) && c.request == Patch(changes)
    && IsListing(store, c.caller.id, board, list) && DistinctDates(list) && target in list
    && target.owner == c.caller.id
    && IsListing(StepAll(store, Target(target.id, c)), c.caller.id, board, refetched)
  }

  /** An archive flag in the patch takes the note off this board. */
  predicate Toggles(changes: Changes, board: Board) {
    changes.archived.Some? ==> changes.archived.value != ArchivedView(board)
  }

  /**
   * Pinning or archiving by the owner: with distinct dates, the optimistically updated list, sorted by
   * modification, is what the server would list, exactly when an archive flag in the patch differs
   * from that of the view.
   */
  lemma OptimisticEqualsRefetch(store: Store, board: Board, list: seq<View>, target: View,
                                changes: Changes, c: Call, refetched: seq<View>)
    requires Organizing(store, board, list, target, changes, c, refetched)
    ensures SortNotes(Optimistic(list, target, changes)) == refetched <==> Toggles(changes, board)
  {
    var user, id := c.caller.id, target.id;
    var after := StepAll(store, Target(id, c));
    ListedOnce(store, user, board, list);
    OrganizedStore(store, target, changes, c);
    hide StepAll, Sorted, DistinctDates, SameElsewhere;
    if changes.archived.None? {
      PinnedEqualsRefetch(store, board, list, target, changes, c, refetched);
    } else if changes.archived.value == ArchivedView(board) {
      WithoutElements(list, id);
      SortSpec(Without(list, id));
      assert ViewOf(id, after[id].note) in refetched;
    } else {
      WithoutEqualsRefetch(store, after, user, board, list, id, refetched);
    }
  }

  /** Replacing a view by one with the same id and date keeps dates distinct. */
  lemma ReplacedDates(list: seq<View>, target: View, note: View)
    requires DistinctDates(list) && Stores.DistinctIds(list) && target in list
    requires note.id == target.id && note.updatedAt == target.updatedAt
    ensures DistinctDates(Replaced(list, note))
  {
    ReplacedAt(list, note);
    var t :| 0 <= t < |list| && list[t] == target;
    forall i | 0 <= i < |list| ensures Replaced(list, note)[i].updatedAt == list[i].updatedAt {
      assert list[i].id == note.id ==> i == t;
    }
  }

  lemma PinnedDates(before: Store, after: Store, user: UserId, board: Board, list: seq<View>, target: View, note: View,
                    refetched: seq<View>)
    requires IsListing(before, user, board, list) && IsListing(after, user, board, refetched)
    requires SameElsewhere(before, after, target.id) && target in list && DistinctDates(list)
    requires target.id in after && note == ViewOf(target.id, after[target.id].note) && note.updatedAt == target.updatedAt
    ensures DistinctDates(refetched)
  {
    forall i, j | 0 <= i < j < |refetched| ensures refetched[i].updatedAt != refetched[j].updatedAt {
      var a, b := refetched[i], refetched[j];
      assert a in refetched && b in refetched;
      var wasA := if a.id == target.id then target else a;
      var wasB := if b.id == target.id then target else b;
      assert wasA in list && wasB in list;
    }
  }

  /** A saved edit: the editor's view put in the cached list is a refetch, if the note stays on the board. */
  lemma SavedEditEqualsRefetch(store: Store, user: UserId, board: Board, list: seq<View>, id: Id, c: Call, refetched: seq<View>)
    requires c.request.Patch? && HasContent(c.request.changes) && ReplyOf(store, Target(id, c)).Shown?
    requires IsListing(store, user, board, list) && DistinctDates(list)
    requires forall view :: view in list ==> view.updatedAt < c.now
    requires id in store && OnBoard(store[id].note, user, board)
    requires var after := StepAll(store, Target(id, c));
      id in after && OnBoard(after[id].note, user, board) && IsListing(after, user, board, refetched)
    ensures SortNotes(Replaced(list, ReplyOf(store, Target(id, c)).view)) == refetched
  {
    var after := StepAll(store, Target(id, c));
    var note := ViewOf(id, after[id].note);
    SavedStore(store, id, c);
    ListedOnce(store, user, board, list);
    hide StepAll, ReplyOf, Sorted, Shows, SameElsewhere, IsListing, OnBoard;
    SavedDates(list, note);
    RefetchedDates(store, after, user, board, list, note, refetched);
    ReplacedEqualsRefetch(store, after, user, board, list, id, refetched);
  }

  lemma SavedStore(store: Store, id: Id, c: Call)
    requires c.request.Patch? && HasContent(c.request.changes) && ReplyOf(store, Target(id, c)).Shown?
    requires id in store
    ensures var after := StepAll(store, Target(id, c));
      && id in after && SameElsewhere(store, after, id)
      && ReplyOf(store, Target(id, c)).view == ViewOf(id, after[id].note)
      && after[id].note.updatedAt == c.now
  {
  }

  lemma SavedDates(list: seq<View>, note: View)
    requires DistinctDates(list) && Stores.DistinctIds(list)
    requires forall view :: view in list ==> view.updatedAt < note.updatedAt
    ensures DistinctDates(Replaced(list, note))
  {
    ReplacedAt(list, note);
    assert forall i :: 0 <= i < |list| ==> list[i] in list;
  }

  lemma RefetchedDates(before: Store, after: Store, user: UserId, board: Board, list: seq<View>, note: View,
                       refetched: seq<View>)
    requires IsListing(before, user, board, list) && IsListing(after, user, board, refetched)
    requires SameElsewhere(before, after, note.id) && DistinctDates(list)
    requires note.id in after && note == ViewOf(note.id, after[note.id].note)
    requires forall view :: view in list ==> view.updatedAt < note.updatedAt
    ensures DistinctDates(refetched)
  {
    forall i, j | 0 <= i < j < |refetched| ensures refetched[i].updatedAt != refetched[j].updatedAt {
      var a, b := refetched[i], refetched[j];
      assert a in refetched && b in refetched;
      assert a.id == note.id ==> a == note;
      assert b.id == note.id ==> b == note;
      assert a.id != note.id ==> a in list;
      assert b.id != note.id ==> b in list;
    }
  }

  /** A hard delete: dropping the note from the cached list is a refetch. */
  lemma DeletedEqualsRefetch(store: Store, user: UserId, board: Board, list: seq<View>, id: Id, c: Call, refetched: seq<View>)
    requires c.request.Delete? && ReplyOf(store, Target(id, c)).Done?
    requires IsListing(store, user, board, list) && DistinctDates(list)
    requires IsListing(StepAll(store, Target(id, c)), user, board, refetched)
    ensures SortNotes(Without(list, id)) == refetched
  {
    WithoutEqualsRefetch(store, StepAll(store, Target(id, c)), user, board, list, id, refetched);
  }
}
