/** All notes together: runs of the whole store, board listings, and what each member can tell of it. */
module Stores {
  import opened Wrappers
  import opened Notes
  import opened Sequences
  import Leases

  type Store = map<Id, Entry>

  function Get(store: Store, id: Id): Option<Entry> {
    if id in store then Some(store[id]) else None
  }

  function Put(store: Store, id: Id, entry: Option<Entry>): Store {
    if entry.Some? then store[id := entry.value] else store - {id}
  }

  datatype Target = Target(id: Id, call: Call)

  function StepAll(store: Store, t: Target): Store {
    Put(store, t.id, Step(t.id, Get(store, t.id), t.call).entry)
  }

  function ReplyOf(store: Store, t: Target): Reply {
    Step(t.id, Get(store, t.id), t.call).reply
  }

  // ----- Runs of the store are runs of each of its notes -----

  function ExecAll(targets: seq<Target>): Store {
    if targets == [] then map[]
    else StepAll(ExecAll(targets[..|targets| - 1]), targets[|targets| - 1])
  }

  /** The requests that name one note. */
  function Project(targets: seq<Target>, id: Id): seq<Call> {
    if targets == [] then []
    else
      Project(targets[..|targets| - 1], id)
      + (if targets[|targets| - 1].id == id then [targets[|targets| - 1].call] else [])
  }

  lemma ProjectSnoc(targets: seq<Target>, t: Target, id: Id)
    ensures Project(targets + [t], id) == Project(targets, id) + (if t.id == id then [t.call] else [])
  {
    InitOfSnoc(targets, t);
  }

  lemma {:induction false} RunsProject(targets: seq<Target>, id: Id)
    ensures Get(ExecAll(targets), id) == Leases.Exec(id, Project(targets, id)).entry
  {
    if targets != [] {
      hide Step, Project, Leases.Exec;
      var n := |targets| - 1;
      var earlier, t := targets[..n], targets[n];
      assert targets == earlier + [t];
      RunsProject(earlier, id);
      ProjectSnoc(earlier, t, id);
      if t.id == id {
        Leases.ExecSnoc(id, Project(earlier, id), t.call);
      } else {
        assert Project(earlier, id) + [] == Project(earlier, id);
      }
    }
  }

  // ----- Board listings -----

  datatype Board = Mine(archived: bool) | Public

  /** The WHERE clause of `list_notes`. */
  predicate OnBoard(note: Note, user: UserId, board: Board) {
    match board
    case Mine(archived) => note.owner == user && note.archived == archived
    case Public => note.visibility == PUBLIC && !note.archived
  }

  /** The ORDER BY clause: pinned first, then newest; ties in any order. */
  predicate InOrder(a: View, b: View) {
    if a.pinned != b.pinned then a.pinned else a.updatedAt >= b.updatedAt
  }

  predicate Sorted(list: seq<View>) {
    forall i, j :: 0 <= i < j < |list| ==> InOrder(list[i], list[j])
  }

  predicate DistinctIds(list: seq<View>) {
    forall i, j :: 0 <= i < j < |list| ==> list[i].id != list[j].id
  }

  /** `list` shows exactly the notes of the board, each once. */
  predicate Shows(store: Store, user: UserId, board: Board, list: seq<View>) {
    && DistinctIds(list)
    && (forall view :: view in list ==>
          view.id in store && OnBoard(store[view.id].note, user, board) && view == ViewOf(view.id, store[view.id].note))
    && (forall id :: id in store && OnBoard(store[id].note, user, board) ==> ViewOf(id, store[id].note) in list)
  }

  /** What `list_notes` may answer. */
  predicate IsListing(store: Store, user: UserId, board: Board, list: seq<View>) {
    Shows(store, user, board, list) && Sorted(list)
  }

  /** The board by the fields of its notes. */
  predicate BelongsOn(note: Note, user: UserId, board: Board) {
    match board
    case Mine(archived) => note.owner == user && (note.archived <==> archived)
    case Public => note.visibility == PUBLIC && !note.archived
  }

  /** A listing shows exactly the notes that belong, each once, no pinned note after another, and newest first. */
  lemma ListingsAreOrdered(store: Store, user: UserId, board: Board, list: seq<View>)
    ensures IsListing(store, user, board, list) <==>
              && (forall view :: view in list ==>
                    view.id in store && BelongsOn(store[view.id].note, user, board)
                    && view == ViewOf(view.id, store[view.id].note))
              && (forall id :: id in store && BelongsOn(store[id].note, user, board) ==>
                    ViewOf(id, store[id].note) in list)
              && (forall i, j :: 0 <= i < j < |list| ==>
                    && list[i].id != list[j].id
                    && (list[j].pinned ==> list[i].pinned)
                    && (list[i].pinned == list[j].pinned ==> list[i].updatedAt >= list[j].updatedAt))
  {
    assert forall id :: id in store ==> (BelongsOn(store[id].note, user, board) <==> OnBoard(store[id].note, user, board));
    assert forall i, j :: 0 <= i < j < |list| ==>
      (InOrder(list[i], list[j]) <==>
         (list[j].pinned ==> list[i].pinned)
         && (list[i].pinned == list[j].pinned ==> list[i].updatedAt >= list[j].updatedAt));
  }

  // ----- Private notes are inert to other members -----

  predicate Hidden(note: Note, user: UserId) {
    note.visibility == PRIVATE && note.owner != user
  }

  /** The store without the private notes of others, nor their versions. */
  function Erase(store: Store, user: UserId): Store {
    map id | id in store && !Hidden(store[id].note, user) :: store[id]
  }

  /** What `user` can see of one note. */
  function Visible(entry: Option<Entry>, user: UserId): Option<Entry> {
    if entry.Some? && Hidden(entry.value.note, user) then None else entry
  }

  lemma EditStaysVisible(id: Id, entry: Entry, changes: Changes, c: Call)
    requires HasContent(changes) && !Hidden(entry.note, c.caller.id)
    requires Refused(entry.note, changes, c.caller.id).None?
    ensures var o := BorrowedEdit(id, entry, changes, c);
      o.entry.Some? && !Hidden(o.entry.value.note, c.caller.id)
  {
  }

  lemma PatchStaysVisible(id: Id, entry: Entry, changes: Changes, c: Call)
    requires !Hidden(entry.note, c.caller.id)
    ensures var o := PatchStep(id, entry, changes, c);
      o.entry.Some? && !Hidden(o.entry.value.note, c.caller.id)
  {
  }

  /** A caller's own request never makes a note invisible to the caller. */
  lemma StaysVisible(id: Id, entry: Entry, c: Call)
    requires !Hidden(entry.note, c.caller.id)
    ensures var o := Step(id, Some(entry), c);
      o.entry.Some? ==> !Hidden(o.entry.value.note, c.caller.id)
  {
    if !IsCreation(c.request) && !c.request.Delete? && !c.request.AgentDelete? && Readable(entry.note, c.caller.id) {
      match c.request {
        case Patch(changes) => PatchStaysVisible(id, entry, changes, c);
        case Restore(versionId) =>
          var version := FindVersion(entry.history, versionId);
          if version.Some? {
            EditStaysVisible(id, entry, RestoredChanges(version.value, entry.note, c.caller.id), c);
          }
        case AgentUpdate(title, body, color) =>
          var changes := Changes(title, body, color, None, None, None);
          if HasContent(changes) {
            EditStaysVisible(id, entry, changes, c);
          }
        case Read =>
        case AgentGet =>
        case ListVersions =>
        case Lock =>
        case Unlock =>
        case AgentFlags(_, _) =>
      }
    }
  }

  /** On one note: the same answer, and the same visible result, as if hidden notes did not exist. */
  lemma VisibleStep(id: Id, entry: Option<Entry>, c: Call)
    requires !c.caller.admin && (IsCreation(c.request) ==> entry.None?)
    ensures Step(id, Visible(entry, c.caller.id), c).reply == Step(id, entry, c).reply
    ensures Step(id, Visible(entry, c.caller.id), c).entry == Visible(Step(id, entry, c).entry, c.caller.id)
  {
    if entry.Some? && !Hidden(entry.value.note, c.caller.id) {
      StaysVisible(id, entry.value, c);
    }
  }

  lemma EraseGets(store: Store, user: UserId, id: Id)
    ensures Get(Erase(store, user), id) == Visible(Get(store, id), user)
  {
  }

  lemma ErasePuts(store: Store, user: UserId, id: Id, entry: Option<Entry>)
    ensures Erase(Put(store, id, entry), user) == Put(Erase(store, user), id, Visible(entry, user))
  {
  }

  /** Every request of a member who is no admin commutes with erasing the private notes of others. */
  lemma RequestsCommuteWithErasure(store: Store, t: Target)
    requires !t.call.caller.admin && (IsCreation(t.call.request) ==> t.id !in store)
    ensures var user := t.call.caller.id;
      && ReplyOf(Erase(store, user), t) == ReplyOf(store, t)
      && StepAll(Erase(store, user), t) == Erase(StepAll(store, t), user)
  {
    var user := t.call.caller.id;
    EraseGets(store, user, t.id);
    VisibleStep(t.id, Get(store, t.id), t.call);
    ErasePuts(store, user, t.id, Step(t.id, Get(store, t.id), t.call).entry);
  }

  /** Board listings do not depend on them either. */
  lemma ListingsIgnoreHidden(store: Store, user: UserId, board: Board, list: seq<View>)
    ensures IsListing(store, user, board, list) <==> IsListing(Erase(store, user), user, board, list)
  {
    assert forall id :: id in store && OnBoard(store[id].note, user, board) ==> !Hidden(store[id].note, user);
    assert forall id :: id in store && OnBoard(store[id].note, user, board) ==> id in Erase(store, user);
  }

  // ----- Whole runs as one member sees them -----

  /** What reaches a member's sight: a request on a note in sight, or someone else's note coming into sight. */
  datatype Glimpse = Asked(t: Target) | Appeared(id: Id, entry: Entry)

  /** What `user` can tell of one request of a run: nothing, if the note is hidden before and after. */
  function Seen(store: Store, t: Target, user: UserId): seq<Glimpse> {
    var shown := Visible(Step(t.id, Get(store, t.id), t.call).entry, user);
    if t.call.caller.id == user || Visible(Get(store, t.id), user).Some? then [Asked(t)]
    else if shown.Some? then [Appeared(t.id, shown.value)]
    else []
  }

  function Glimpses(store: Store, targets: seq<Target>, user: UserId): seq<Glimpse>
    decreases |targets|
  {
    if targets == [] then []
    else Seen(store, targets[0], user) + Glimpses(StepAll(store, targets[0]), targets[1..], user)
  }

  /** A glimpse replayed on the store the member sees; what goes out of sight is forgotten. */
  function Replay(seen: Store, g: Glimpse, user: UserId): Store {
    match g
    case Asked(t) => Erase(StepAll(seen, t), user)
    case Appeared(id, entry) => seen[id := entry]
  }

  function ReplayAll(seen: Store, glimpses: seq<Glimpse>, user: UserId): Store
    decreases |glimpses|
  {
    if glimpses == [] then seen else ReplayAll(Replay(seen, glimpses[0], user), glimpses[1..], user)
  }

  /** The answers `user` receives along a run. */
  function Answers(store: Store, targets: seq<Target>, user: UserId): seq<Reply>
    decreases |targets|
  {
    if targets == [] then []
    else
      (if targets[0].call.caller.id == user then [ReplyOf(store, targets[0])] else [])
      + Answers(StepAll(store, targets[0]), targets[1..], user)
  }

  function GlimpseAnswer(seen: Store, g: Glimpse, user: UserId): seq<Reply> {
    match g
    case Asked(t) => if t.call.caller.id == user then [ReplyOf(seen, t)] else []
    case Appeared(_, _) => []
  }

  function ReplayedAnswers(seen: Store, glimpses: seq<Glimpse>, user: UserId): seq<Reply>
    decreases |glimpses|
  {
    if glimpses == [] then []
    else GlimpseAnswer(seen, glimpses[0], user) + ReplayedAnswers(Replay(seen, glimpses[0], user), glimpses[1..], user)
  }

  function Final(store: Store, targets: seq<Target>): Store
    decreases |targets|
  {
    if targets == [] then store else Final(StepAll(store, targets[0]), targets[1..])
  }

  /** `user` is no admin, and the ids of notes `user` creates are new. */
  predicate PlainMember(store: Store, targets: seq<Target>, user: UserId)
    decreases |targets|
  {
    targets == [] ||
    (var t := targets[0];
     && (t.call.caller.id == user ==> !t.call.caller.admin && (IsCreation(t.call.request) ==> t.id !in store))
     && PlainMember(StepAll(store, t), targets[1..], user))
  }

  /** Someone else's request on a note in sight does to it the same, whatever is hidden. */
  lemma AskedStep(store: Store, t: Target, user: UserId)
    requires Visible(Get(store, t.id), user).Some?
    ensures Erase(StepAll(Erase(store, user), t), user) == Erase(StepAll(store, t), user)
  {
    var entry := Step(t.id, Get(store, t.id), t.call).entry;
    EraseGets(store, user, t.id);
    ErasePuts(store, user, t.id, entry);
    ErasePuts(Erase(store, user), user, t.id, entry);
    EraseTwice(store, user);
  }

  lemma EraseTwice(store: Store, user: UserId)
    ensures Erase(Erase(store, user), user) == Erase(store, user)
  {
  }

  /** Each request moves the store in sight as its glimpse does, with the same answer to `user`. */
  lemma SeenStep(store: Store, t: Target, user: UserId)
    requires t.call.caller.id == user ==> !t.call.caller.admin && (IsCreation(t.call.request) ==> t.id !in store)
    ensures ReplayAll(Erase(store, user), Seen(store, t, user), user) == Erase(StepAll(store, t), user)
    ensures ReplayedAnswers(Erase(store, user), Seen(store, t, user), user) ==
            if t.call.caller.id == user then [ReplyOf(store, t)] else []
  {
    var entry := Step(t.id, Get(store, t.id), t.call).entry;
    ErasePuts(store, user, t.id, entry);
    if t.call.caller.id == user {
      RequestsCommuteWithErasure(store, t);
      EraseTwice(StepAll(store, t), user);
      ReplayOne(Erase(store, user), Asked(t), user);
    } else if Visible(Get(store, t.id), user).Some? {
      AskedStep(store, t, user);
      ReplayOne(Erase(store, user), Asked(t), user);
    } else if Visible(entry, user).Some? {
      ReplayOne(Erase(store, user), Appeared(t.id, entry.value), user);
    } else {
      EraseGets(store, user, t.id);
    }
  }

  lemma ReplayOne(seen: Store, g: Glimpse, user: UserId)
    ensures ReplayAll(seen, [g], user) == Replay(seen, g, user)
    ensures ReplayedAnswers(seen, [g], user) == GlimpseAnswer(seen, g, user)
  {
    assert [g][1..] == [];
  }

  lemma {:induction false} ReplayConcat(seen: Store, a: seq<Glimpse>, b: seq<Glimpse>, user: UserId)
    ensures ReplayAll(seen, a + b, user) == ReplayAll(ReplayAll(seen, a, user), b, user)
    ensures ReplayedAnswers(seen, a + b, user) ==
            ReplayedAnswers(seen, a, user) + ReplayedAnswers(ReplayAll(seen, a, user), b, user)
    decreases |a|
  {
    hide Replay, GlimpseAnswer;
    if a == [] {
      assert a + b == b;
    } else {
      var next := Replay(seen, a[0], user);
      TailOfConcat(a, b);
      ReplayConcat(next, a[1..], b, user);
      Associate(GlimpseAnswer(seen, a[0], user), ReplayedAnswers(next, a[1..], user),
                ReplayedAnswers(ReplayAll(next, a[1..], user), b, user));
    }
  }

  /**
   * Over every run, a member's answers, and the store as the member sees it, are those of replaying what
   * came into the member's sight on a store without the private notes of others.
   */
  lemma {:induction false} PrivateActivityIsInvisible(store: Store, targets: seq<Target>, user: UserId)
    requires PlainMember(store, targets, user)
    ensures Answers(store, targets, user) ==
            ReplayedAnswers(Erase(store, user), Glimpses(store, targets, user), user)
    ensures Erase(Final(store, targets), user) ==
            ReplayAll(Erase(store, user), Glimpses(store, targets, user), user)
    decreases |targets|
  {
    if targets != [] {
      var t, rest := targets[0], targets[1..];
      SeenStep(store, t, user);
      PrivateActivityIsInvisible(StepAll(store, t), rest, user);
      ReplayConcat(Erase(store, user), Seen(store, t, user), Glimpses(StepAll(store, t), rest, user), user);
    }
  }

  /** So two runs that differ only out of a member's sight cannot be told apart. */
  lemma UnseenDifferencesStayUnseen(a: Store, runA: seq<Target>, b: Store, runB: seq<Target>, user: UserId)
    requires PlainMember(a, runA, user) && PlainMember(b, runB, user)
    requires Erase(a, user) == Erase(b, user) && Glimpses(a, runA, user) == Glimpses(b, runB, user)
    ensures Answers(a, runA, user) == Answers(b, runB, user)
    ensures Erase(Final(a, runA), user) == Erase(Final(b, runB), user)
  {
    PrivateActivityIsInvisible(a, runA, user);
    PrivateActivityIsInvisible(b, runB, user);
  }

  /** Requests of others on notes that are hidden before and after. */
  predicate OutOfSight(store: Store, targets: seq<Target>, user: UserId)
    decreases |targets|
  {
    targets == [] ||
    (var t := targets[0];
     && t.call.caller.id != user
     && Visible(Get(store, t.id), user).None?
     && Visible(Step(t.id, Get(store, t.id), t.call).entry, user).None?
     && OutOfSight(StepAll(store, t), targets[1..], user))
  }

  /** They leave no glimpse, so the store in sight stays as it is. */
  lemma {:induction false} PrivateRequestsLeaveNoGlimpse(store: Store, targets: seq<Target>, user: UserId)
    requires OutOfSight(store, targets, user)
    ensures Glimpses(store, targets, user) == []
    ensures Erase(Final(store, targets), user) == Erase(store, user)
    decreases |targets|
  {
    if targets != [] {
      hide Step;
      SeenStep(store, targets[0], user);
      PrivateRequestsLeaveNoGlimpse(StepAll(store, targets[0]), targets[1..], user);
    }
  }

  // ----- Runs told from the front -----

  /** Both ways of running a list of requests agree. */
  lemma {:induction false} RunsContinue(before: seq<Target>, targets: seq<Target>)
    ensures ExecAll(before + targets) == Final(ExecAll(before), targets)
    decreases |targets|
  {
    if targets == [] {
      assert before + targets == before;
    } else {
      var t := targets[0];
      var longer := before + [t];
      assert longer[..|longer| - 1] == before && before + targets == longer + targets[1..];
      RunsContinue(longer, targets[1..]);
    }
  }
}
