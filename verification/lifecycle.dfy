/**
 The mounted container over time, with the one state change that bypasses
 `setState`: rendering the admin overview sorts `students` in place, the
 `[state]` effect does not see it, and storage keeps the roster in its
 earlier order until the next operation that replaces the snapshot.
 */
module Lifecycle {
  import opened Wrappers
  import opened Domain
  import opened State
  import opened Store
  import AD = AdminDashboard

  /** Something that happens while the container is mounted. */
  datatype Event =
    | Dispatch(op: Op)   // a screen calls one of the seven operations
    | ShowOverview       // the admin overview renders and sorts the roster in place

  /** One event. The in-place sort goes around `setState`, so it writes nothing. */
  function Step(s: Session, e: Event): (r: Session)
    ensures e.Dispatch? ==> r == Commit(s, e.op)
    ensures e.ShowOverview? ==> r.storage == s.storage
    ensures e.ShowOverview? ==>
              multiset(r.state.students) == multiset(s.state.students)
              && AD.ByXpDesc(r.state.students)
              && OnlyChanged(s.state, r.state, StudentsField)
  {
    match e
    case Dispatch(op) => Commit(s, op)
    case ShowOverview => Session(s.storage, AD.OverviewInPlace(s.state))
  }

  /**
   Storage holds the live snapshot up to the order of the roster: every other
   field agrees, and the stored roster is a permutation of the live one.
   */
  predicate Mirrors(s: Session)
  {
    && StorageKey in s.storage
    && s.storage[StorageKey].Json?
    && var saved := s.storage[StorageKey].state;
       saved == s.state.(students := saved.students)
       && multiset(saved.students) == multiset(s.state.students)
  }

  /** A sequence of events, applied in order; storage keeps mirroring the snapshot. */
  function Replay(s: Session, events: seq<Event>): (r: Session)
    ensures Mirrors(s) ==> Mirrors(r)
    decreases |events|
  {
    if |events| == 0 then s
    else
      var next := Step(s, events[0]);
      assert Mirrors(s) ==> Mirrors(next) by {
        if Mirrors(s) && events[0].Dispatch? && Replaces(s.state, events[0].op) {
          assert Synced(next);
        }
      }
      Replay(next, events[1..])
  }

  /** A synced session mirrors its snapshot. */
  lemma SyncedMirrors(s: Session)
    requires Synced(s)
    ensures Mirrors(s)
  {
    assert s.state == s.state.(students := s.state.students);
  }

  /**
   Whatever happens after mounting, a reload yields the live snapshot except
   perhaps for the order of its roster.
   */
  lemma ReloadAfterReplay(s: Session, events: seq<Event>, f: Fixtures)
    requires Synced(s)
    ensures var live := Replay(s, events).state;
            exists t: AppState :: Load(Replay(s, events).storage, f) == Success(t)
                        && t == live.(students := t.students)
                        && multiset(t.students) == multiset(live.students)
  {
    SyncedMirrors(s);
    var r := Replay(s, events);
    var t := r.storage[StorageKey].state;
    assert Load(r.storage, f) == Success(t);
  }

  /**
   Showing the overview on a synced session leaves storage behind: a reload
   yields the roster in its old order, while the live roster is sorted.
   */
  lemma OverviewLeavesStorageBehind(s: Session, f: Fixtures)
    requires Synced(s)
    ensures Load(Step(s, ShowOverview).storage, f) == Success(s.state)
    ensures Step(s, ShowOverview).state.students == AD.SortByXp(s.state.students)
  {
  }

  /** The next operation that replaces the snapshot brings storage back in step. */
  lemma DispatchResyncs(s: Session, op: Op)
    requires Replaces(s.state, op)
    ensures Synced(Step(s, Dispatch(op)))
  {
  }
}
