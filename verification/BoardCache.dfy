/** The module-level cache of board lists: web/src/lib/boardCache.ts. */
module BoardCache {
  import opened Wrappers
  import opened Notes
  import opened Boards
  import Stores

  /** The position of the note, or the length of the list (`findIndex`). */
  function IndexOf(list: seq<View>, id: Id): (index: nat)
    ensures index <= |list| && (index < |list| ==> list[index].id == id)
    ensures index == |list| ==> forall view :: view in list ==> view.id != id
  {
    if list == [] || list[0].id == id then 0 else 1 + IndexOf(list[1..], id)
  }

  predicate Holds(list: seq<View>, id: Id) {
    exists view :: view in list && view.id == id
  }

  /** The list with the cached copy of the note, if any, replaced. */
  function Upserted(list: seq<View>, note: View): seq<View> {
    var index := IndexOf(list, note.id);
    if index < |list| then list[index := note] else list
  }

  /** Where ids are distinct, replacing the first copy is replacing by id. */
  lemma {:induction false} UpsertReplaces(list: seq<View>, note: View)
    requires Stores.DistinctIds(list)
    ensures Upserted(list, note) == Replaced(list, note)
  {
    var index := IndexOf(list, note.id);
    ReplacedAt(list, note);
    forall i | 0 <= i < |list| ensures Upserted(list, note)[i] == Replaced(list, note)[i] {
      assert list[i] in list;
    }
  }

  class Cache {
    var lists: map<string, seq<View>>
    /** How often the listeners were told. */
    var emitted: nat

    constructor ()
      ensures lists == map[] && emitted == 0
    {
      lists, emitted := map[], 0;
    }

    method SetCachedBoard(key: string, list: seq<View>)
      modifies this
      ensures lists == old(lists)[key := list] && emitted == old(emitted) + 1
    {
      lists := lists[key := list];
      emitted := emitted + 1;
    }

    /** `onOrganize` on the list under `key`; an absent list counts as empty. */
    method Organize(key: string, target: View, changes: Changes)
      modifies this
      ensures lists == old(lists)[key := Optimistic(if key in old(lists) then old(lists)[key] else [], target, changes)]
      ensures emitted == old(emitted) + 1
      // If the list was the server's, then sorted it is the server's again exactly when an archive flag toggles.
      ensures key in old(lists) ==>
                forall store: Stores.Store, board, c, refetched ::
                  Organizing(store, board, old(lists)[key], target, changes, c, refetched) ==>
                    (SortNotes(lists[key]) == refetched <==> Toggles(changes, board))
    {
      var current := if key in lists then lists[key] else [];
      forall store: Stores.Store, board, c, refetched | Organizing(store, board, current, target, changes, c, refetched)
        ensures SortNotes(Optimistic(current, target, changes)) == refetched <==> Toggles(changes, board)
      {
        OptimisticEqualsRefetch(store, board, current, target, changes, c, refetched);
      }
      SetCachedBoard(key, Optimistic(current, target, changes));
    }

    /** The lists are visited in some order, each rewritten while the map is walked. */
    method UpsertCachedNote(note: View)
      modifies this
      ensures lists == map key | key in old(lists) :: Upserted(old(lists)[key], note)
      ensures emitted == old(emitted) + if AnyHolds(old(lists), {}, note.id) then 1 else 0
    {
      hide Holds, Upserted;
      ghost var before := lists;
      PartlyDone(before, note);
      var changed := false;
      var keys := lists.Keys;
      while keys != {}
        invariant keys <= before.Keys && emitted == old(emitted)
        invariant lists == Partly(before, keys, note)
        invariant changed <==> AnyHolds(before, keys, note.id)
        decreases keys
      {
        var key :| key in keys;
        AnyHoldsStep(before, keys, key, note.id);
        PartlyStep(before, keys, key, note);
        var found := ReplaceIn(key, note);
        changed := changed || found;
        keys := keys - {key};
      }
      if changed {
        emitted := emitted + 1;
      }
    }

    method ReplaceIn(key: string, note: View) returns (found: bool)
      requires key in lists
      modifies `lists
      ensures found <==> Holds(old(lists)[key], note.id)
      ensures lists == old(lists)[key := Upserted(old(lists)[key], note)]
    {
      var list := lists[key];
      var index := IndexOf(list, note.id);
      HoldsIndex(list, note.id);
      found := index < |list|;
      if found {
        lists := lists[key := list[index := note]];
      }
    }

    method RemoveCachedNote(id: Id)
      modifies this
      ensures lists == map key | key in old(lists) :: Without(old(lists)[key], id)
      ensures emitted == old(emitted) + if AnyHolds(old(lists), {}, id) then 1 else 0
    {
      ghost var before := lists;
      var changed := false;
      var keys := lists.Keys;
      while keys != {}
        invariant keys <= lists.Keys == before.Keys && emitted == old(emitted)
        invariant forall key :: key in lists ==>
                    lists[key] == if key in keys then before[key] else Without(before[key], id)
        invariant changed <==> AnyHolds(before, keys, id)
        decreases keys
      {
        var key :| key in keys;
        AnyHoldsStep(before, keys, key, id);
        if Holds(lists[key], id) {
          lists := lists[key := Without(lists[key], id)];
          changed := true;
        } else {
          WithoutAbsent(lists[key], id);
        }
        keys := keys - {key};
      }
      if changed {
        emitted := emitted + 1;
      }
    }
  }

  /** The lists outside `keys` have been rewritten. */
  ghost function Partly(lists: map<string, seq<View>>, keys: set<string>, note: View): map<string, seq<View>> {
    map key | key in lists :: if key in keys then lists[key] else Upserted(lists[key], note)
  }

  lemma PartlyStep(lists: map<string, seq<View>>, keys: set<string>, key: string, note: View)
    requires key in keys && key in lists
    ensures Partly(lists, keys - {key}, note) == Partly(lists, keys, note)[key := Upserted(lists[key], note)]
  {
  }

  lemma PartlyDone(lists: map<string, seq<View>>, note: View)
    ensures Partly(lists, {}, note) == map key | key in lists :: Upserted(lists[key], note)
    ensures Partly(lists, lists.Keys, note) == lists
  {
  }

  /** Some list, outside `keys`, holds the note. */
  ghost predicate AnyHolds(lists: map<string, seq<View>>, keys: set<string>, id: Id) {
    exists key :: key in lists && key !in keys && Holds(lists[key], id)
  }

  lemma AnyHoldsStep(lists: map<string, seq<View>>, keys: set<string>, key: string, id: Id)
    requires key in keys && key in lists
    ensures AnyHolds(lists, keys - {key}, id) <==> AnyHolds(lists, keys, id) || Holds(lists[key], id)
  {
  }

  lemma HoldsIndex(list: seq<View>, id: Id)
    ensures Holds(list, id) <==> IndexOf(list, id) < |list|
  {
    if IndexOf(list, id) < |list| {
      assert list[IndexOf(list, id)] in list;
    }
  }

  lemma {:induction false} WithoutAbsent(list: seq<View>, id: Id)
    requires forall view :: view in list ==> view.id != id
    ensures Without(list, id) == list
  {
    if list != [] {
      assert list[0] in list && forall view :: view in list[1..] ==> view in list;
      WithoutAbsent(list[1..], id);
    }
  }
}
