/** What the single-note theorems say of the whole store. */
module StoreRuns {
  import opened Wrappers
  import opened Notes
  import opened Leases
  import opened Histories
  import Stores
  import opened SingleWriter

  /** One clock for all requests, ids used once, imports dated in the past, versions dated after earlier ones. */
  predicate TimelyTarget(before: seq<Stores.Target>, t: Stores.Target) {
    && (IsCreation(t.call.request) ==> forall b :: b in before && b.id == t.id ==> !IsCreation(b.call.request))
    && (before != [] ==> before[|before| - 1].call.now <= t.call.now)
    && (t.call.request.Import? ==> t.call.request.createdAt < t.call.now)
    && (t.id in Stores.ExecAll(before) ==>
          DatedLater(Stores.ExecAll(before)[t.id], Step(t.id, Some(Stores.ExecAll(before)[t.id]), t.call).entry, t.call.now))
  }

  predicate TimelyStore(targets: seq<Stores.Target>) {
    targets == [] ||
    (TimelyStore(targets[..|targets| - 1]) && TimelyTarget(targets[..|targets| - 1], targets[|targets| - 1]))
  }

  lemma {:induction false} ProjectMembers(targets: seq<Stores.Target>, id: Id)
    ensures forall c :: c in Stores.Project(targets, id) ==> exists t :: t in targets && t.id == id && t.call == c
  {
    if targets != [] {
      var n := |targets| - 1;
      ProjectMembers(targets[..n], id);
      assert targets[n] in targets && forall t :: t in targets[..n] ==> t in targets;
    }
  }

  lemma {:induction false} ProjectIsEarlier(targets: seq<Stores.Target>, id: Id)
    requires TimelyStore(targets) && Stores.Project(targets, id) != []
    ensures var calls := Stores.Project(targets, id);
      targets != [] && calls[|calls| - 1].now <= targets[|targets| - 1].call.now
  {
    var n := |targets| - 1;
    if targets[n].id != id {
      assert Stores.Project(targets, id) == Stores.Project(targets[..n], id);
      ProjectIsEarlier(targets[..n], id);
    }
  }

  /** The run of each note within a timely run of the store is timely. */
  lemma {:induction false} ProjectIsTimely(targets: seq<Stores.Target>, id: Id)
    requires TimelyStore(targets)
    ensures Timely(id, Stores.Project(targets, id))
  {
    if targets != [] {
      var n := |targets| - 1;
      var earlier, t := targets[..n], targets[n];
      var calls := Stores.Project(earlier, id);
      ProjectIsTimely(earlier, id);
      if t.id == id {
        ProjectMembers(earlier, id);
        if calls != [] {
          ProjectIsEarlier(earlier, id);
        }
        Stores.RunsProject(earlier, id);
        assert TimelyCall(id, calls, t.call);
        assert Stores.Project(targets, id) == calls + [t.call] && (calls + [t.call])[..|calls|] == calls;
      } else {
        assert Stores.Project(targets, id) == calls;
      }
    }
  }

  /**
   * In every run of the store, every note has a good history, its row shows the lease its own
   * requests earned, and those requests followed the lock's protocol.
   */
  lemma StoreRunsAreSound(targets: seq<Stores.Target>, id: Id)
    requires TimelyStore(targets)
    ensures var own := Exec(id, Stores.Project(targets, id));
      && Protocol(own.log) && Ordered(own.log)
      && (id in Stores.ExecAll(targets) ==>
            && GoodHistory(Stores.ExecAll(targets)[id])
            && RowMatches(Stores.ExecAll(targets)[id].note, own.log))
  {
    var calls := Stores.Project(targets, id);
    ProjectIsTimely(targets, id);
    Stores.RunsProject(targets, id);
    LogIsLegal(id, calls);
    RunsKeepHistory(id, calls);
    if id in Stores.ExecAll(targets) {
      RowShowsTheLease(id, calls);
    }
  }
}
