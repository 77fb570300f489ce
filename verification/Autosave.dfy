/** The autosave machine: web/src/hooks/useAutosave.ts. */
module Autosave {
  datatype SaveState = Saved | Dirty | Saving

  /**
   * `timer` is the handle last stored, `live` the handles that have neither fired nor been cleared.
   * `draft` numbers the edits, `inFlight` lists the drafts from which unsettled saves started and
   * `stored` is the one from which the last successful save to settle started.
   */
  datatype Machine = Machine(
    state: SaveState, dirty: bool, saving: bool, timer: nat, live: set<nat>, handles: nat,
    draft: nat, inFlight: seq<nat>, stored: nat)

  const START := Machine(Saved, false, false, 0, {}, 0, 0, [], 0)

  /** Saves settle in any order: `which` is the place of the settling one among those in flight. */
  datatype Event = Edit | Fire(handle: nat) | Flush | Settled(which: nat, ok: bool)

  /** `clearTimeout(timerRef.current)` */
  function Cleared(m: Machine): Machine {
    m.(live := m.live - {m.timer})
  }

  /** `timerRef.current = setTimeout(run, …)`: the previous handle is forgotten, not cleared. */
  function Armed(m: Machine): Machine {
    m.(timer := m.handles + 1, handles := m.handles + 1, live := m.live + {m.handles + 1})
  }

  /** `run` up to its await. */
  function Run(m: Machine): Machine {
    if m.saving then m
    else
      var cleared := Cleared(m);
      if !m.dirty then cleared
      else cleared.(saving := true, dirty := false, state := Saving, inFlight := m.inFlight + [m.draft])
  }

  function Removed(saves: seq<nat>, which: nat): seq<nat>
    requires which < |saves|
  {
    saves[..which] + saves[which + 1..]
  }

  /** `run` from its await on. */
  function AfterSave(m: Machine, which: nat, ok: bool): Machine
    requires which < |m.inFlight|
  {
    var settled := m.(saving := false, inFlight := Removed(m.inFlight, which),
                      stored := if ok then m.inFlight[which] else m.stored);
    if m.dirty || !ok then Armed(settled.(dirty := true, state := Dirty))
    else settled.(state := Saved)
  }

  /** An edit of the draft, then `queue`. */
  function Queue(m: Machine): Machine {
    var edited := m.(draft := m.draft + 1, dirty := true, state := if m.state == Saving then Saving else Dirty);
    Armed(Cleared(edited))
  }

  /** Timers fire only while live, saves settle only while in flight. */
  predicate Enabled(m: Machine, event: Event) {
    match event
    case Edit => true
    case Flush => true
    case Fire(handle) => handle in m.live
    case Settled(which, _) => which < |m.inFlight|
  }

  function Step(m: Machine, event: Event): Machine
    requires Enabled(m, event)
  {
    match event
    case Edit => Queue(m)
    case Flush => Run(m)
    case Fire(handle) => Run(m.(live := m.live - {handle}))
    case Settled(which, ok) => AfterSave(m, which, ok)
  }

  predicate Possible(m: Machine, events: seq<Event>)
    decreases |events|
  {
    events == [] || (Enabled(m, events[0]) && Possible(Step(m, events[0]), events[1..]))
  }

  function Exec(m: Machine, events: seq<Event>): Machine
    requires Possible(m, events)
    decreases |events|
  {
    if events == [] then m else Exec(Step(m, events[0]), events[1..])
  }

  // ----- Nothing is stranded -----

  predicate Inv(m: Machine) {
    // At most one save is in flight, `saving` says whether, and so does the label.
    && |m.inFlight| == (if m.saving then 1 else 0)
    && (m.state == Saving <==> m.saving)
    && (m.state == Dirty <==> m.dirty && !m.saving)
    // What is not dirty is stored, or on its way.
    && (!m.dirty && !m.saving ==> m.stored == m.draft)
    && (!m.dirty && m.saving ==> m.inFlight == [m.draft])
    // An unsaved edit has a timer coming.
    && (m.dirty && !m.saving ==> m.timer in m.live)
    && (forall handle :: handle in m.live ==> handle <= m.handles)
    && m.timer <= m.handles
    && m.stored <= m.draft && (forall save :: save in m.inFlight ==> save <= m.draft)
  }

  lemma StepKeeps(m: Machine, event: Event)
    requires Inv(m) && Enabled(m, event)
    ensures Inv(Step(m, event))
  {
    if event.Settled? {
      assert m.inFlight[event.which] in m.inFlight;
    }
  }

  lemma {:induction false} RunsKeep(m: Machine, events: seq<Event>)
    requires Inv(m) && Possible(m, events)
    ensures Inv(Exec(m, events))
    decreases |events|
  {
    if events != [] {
      StepKeeps(m, events[0]);
      RunsKeep(Step(m, events[0]), events[1..]);
    }
  }

  /**
   * Over any interleaving of edits, timers, flushes and completions: at most one save is in flight, an
   * unsaved edit that is not being saved has a live timer, `Saved` is shown only when the latest draft is
   * stored, and when nothing is left to happen everything is stored.
   */
  lemma NoEditIsStranded(events: seq<Event>)
    requires Possible(START, events)
    ensures var m := Exec(START, events);
      && |m.inFlight| <= 1
      && (m.draft != m.stored && m.inFlight == [] ==> m.dirty && m.timer in m.live)
      && (m.state == Saved ==> m.stored == m.draft && m.inFlight == [])
      && (m.live == {} && m.inFlight == [] ==> m.state == Saved)
  {
    RunsKeep(START, events);
  }

  /** An edit restarts the debounce: the timer waited for is gone, a new one is waited for, no other moves. */
  lemma EditsRestartTheTimer(m: Machine)
    requires Inv(m)
    ensures var r := Step(m, Edit);
      && r.timer !in m.live && r.live == m.live - {m.timer} + {r.timer}
      && r.draft == m.draft + 1 && r.dirty && r.inFlight == m.inFlight && r.stored == m.stored
  {
  }

  /** A run takes the latest draft, and only when something is unsaved and no save is under way. */
  lemma RunsSaveTheLatest(m: Machine, event: Event)
    requires Inv(m) && Enabled(m, event) && (event.Flush? || event.Fire?)
    ensures var r := Step(m, event);
      && r.draft == m.draft && r.stored == m.stored
      && (if m.dirty && m.inFlight == [] then r.inFlight == [m.draft] && !r.dirty && r.state == Saving
          else r.inFlight == m.inFlight && r.dirty == m.dirty && r.state == m.state)
      && (m.inFlight == [] ==> m.timer !in r.live)
  {
  }

  /** A save that settles: stored if it went well, taken up again if not, or if the draft moved on meanwhile. */
  lemma SavesSettle(m: Machine, ok: bool)
    requires Inv(m) && m.inFlight != []
    ensures var r := Step(m, Settled(0, ok));
      && r.inFlight == [] && r.draft == m.draft
      && r.stored == (if ok then m.inFlight[0] else m.stored)
      && (if ok && m.inFlight[0] == m.draft && !m.dirty then r.state == Saved && r.live == m.live
          else r.state == Dirty && r.dirty && r.timer !in m.live && r.live == m.live + {r.timer})
  {
  }

  /** What is still due when the user stops typing: the running save, the timer, and its save. */
  function Remaining(m: Machine): seq<Event> {
    if m.saving && m.dirty then [Settled(0, true), Fire(m.handles + 1), Settled(0, true)]
    else if m.saving then [Settled(0, true)]
    else if m.dirty then [Fire(m.timer), Settled(0, true)]
    else []
  }

  lemma Unfold(m: Machine, event: Event, rest: seq<Event>)
    requires Enabled(m, event) && Possible(Step(m, event), rest)
    ensures Possible(m, [event] + rest) && Exec(m, [event] + rest) == Exec(Step(m, event), rest)
  {
    assert ([event] + rest)[1..] == rest;
  }

  /** From every reachable state at most three events, with no failing save, store the latest draft. */
  lemma QuietLeadsToSaved(m: Machine)
    requires Inv(m)
    ensures Possible(m, Remaining(m))
    ensures var end := Exec(m, Remaining(m));
      end.state == Saved && end.stored == end.draft == m.draft
  {
    if m.saving && m.dirty {
      var second := Step(m, Settled(0, true));
      var third := Step(second, Fire(m.handles + 1));
      Unfold(third, Settled(0, true), []);
      Unfold(second, Fire(m.handles + 1), [Settled(0, true)]);
      Unfold(m, Settled(0, true), [Fire(m.handles + 1)] + [Settled(0, true)]);
      assert [Settled(0, true)] + [] == [Settled(0, true)];
      assert Remaining(m) == [Settled(0, true)] + ([Fire(m.handles + 1)] + [Settled(0, true)]);
    } else if m.saving {
      Unfold(m, Settled(0, true), []);
      assert Remaining(m) == [Settled(0, true)] + [];
    } else if m.dirty {
      var second := Step(m, Fire(m.timer));
      Unfold(second, Settled(0, true), []);
      Unfold(m, Fire(m.timer), [Settled(0, true)]);
      assert [Settled(0, true)] + [] == [Settled(0, true)];
      assert Remaining(m) == [Fire(m.timer)] + [Settled(0, true)];
    }
  }

  // ----- The hook -----

  class Hook {
    var state: SaveState
    var dirtyRef: bool
    var savingRef: bool
    var timerRef: nat
    var live: set<nat>
    var handles: nat
    var draft: nat
    var inFlight: seq<nat>
    var stored: nat

    function Now(): Machine
      reads this
    {
      Machine(state, dirtyRef, savingRef, timerRef, live, handles, draft, inFlight, stored)
    }

    constructor ()
      ensures Now() == START && Inv(Now())
    {
      state, dirtyRef, savingRef, timerRef, live, handles := Saved, false, false, 0, {}, 0;
      draft, inFlight, stored := 0, [], 0;
    }

    method ClearTimer()
      modifies `live
      ensures Now() == Cleared(old(Now()))
    {
      live := live - {timerRef};
    }

    method ArmTimer()
      modifies this
      ensures Now() == Armed(old(Now()))
    {
      handles := handles + 1;
      live := live + {handles};
      timerRef := handles;
    }

    method StartSave()
      modifies this
      ensures Now() == Run(old(Now()))
      ensures old(Inv(Now())) ==> Inv(Now())
    {
      if savingRef {
        return;
      }
      ClearTimer();
      if !dirtyRef {
        return;
      }
      savingRef := true;
      dirtyRef := false;
      state := Saving;
      inFlight := inFlight + [draft];
    }

    method SaveSettled(which: nat, ok: bool)
      requires Inv(Now()) && which < |inFlight|
      modifies this
      ensures Now() == AfterSave(old(Now()), which, ok) && Inv(Now())
    {
      StepKeeps(Now(), Settled(which, ok));
      savingRef := false;
      if ok {
        stored := inFlight[which];
      }
      inFlight := Removed(inFlight, which);
      if dirtyRef || !ok {
        dirtyRef := true;
        state := Dirty;
        ArmTimer();
      } else {
        state := Saved;
      }
    }

    method QueueEdit()
      requires Inv(Now())
      modifies this
      ensures Now() == Queue(old(Now())) && Inv(Now())
    {
      draft := draft + 1;
      dirtyRef := true;
      if state != Saving {
        state := Dirty;
      }
      ClearTimer();
      ArmTimer();
    }

    method TimerFired(handle: nat)
      requires Inv(Now()) && handle in live
      modifies this
      ensures Now() == Step(old(Now()), Fire(handle)) && Inv(Now())
    {
      StepKeeps(Now(), Fire(handle));
      live := live - {handle};
      StartSave();
    }
  }
}
