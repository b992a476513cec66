/**
 * What GlobalHandler's teardown operations do to the shared pool: folds over
 * the group names and the signal numbers they are given.
 */
module GlobalSpec {
  import opened Wrappers
  import opened Os
  import opened DispatchSpec
  import opened DispatchProps
  import opened GroupSpec

  /**
   * clearGroup: each listed name that names a group clears that group over
   * the whole pool and forgets it, so a name listed twice is cleared once.
   * `modes` maps the groups present to their modes.
   */
  function GroupsCleared(t: Table, os: OsState, modes: map<string, int>, names: seq<string>): Run
    decreases |names|
  {
    if names == [] then Run(t, os, Done)
    else if names[0] in modes then
      var r := GroupCleared(t, os, t.order, names[0], modes[names[0]]);
      GroupsCleared(r.table, r.os, modes - {names[0]}, names[1..])
    else GroupsCleared(t, os, modes, names[1..])
  }

  /** clearGroup seen from its `i`-th name: that name's step, then the rest of the list. */
  lemma GroupsClearedNext(t: Table, os: OsState, modes: map<string, int>, names: seq<string>, i: int)
    requires 0 <= i < |names|
    ensures GroupsCleared(t, os, modes, names[i..])
      == if names[i] in modes then
           var r := GroupCleared(t, os, t.order, names[i], modes[names[i]]);
           GroupsCleared(r.table, r.os, modes - {names[i]}, names[i + 1..])
         else GroupsCleared(t, os, modes, names[i + 1..])
  {
    assert names[i..][1..] == names[i + 1..];
  }

  /** One number of clearSignal: a dispatcher in the pool is cleared entirely and unset. */
  function SignalStep(t: Table, os: OsState, s: int): Run {
    if s !in t.stacks then Run(t, os, Done)
    else
      var step := Cleared(t.stacks[s], os, GroupList([]));
      Run(Removed(t, s), step.os, Done)
  }

  /** clearSignal: the listed numbers in order; absent ones are skipped. */
  function SignalsCleared(t: Table, os: OsState, numbers: seq<int>): Run
    decreases |numbers|
  {
    if numbers == [] then Run(t, os, Done)
    else
      var r := SignalStep(t, os, numbers[0]);
      SignalsCleared(r.table, r.os, numbers[1..])
  }

  /** clear: every group in order, then every number the pool still holds. */
  function GlobalCleared(t: Table, os: OsState, modes: map<string, int>, names: seq<string>): Run {
    var g := GroupsCleared(t, os, modes, names);
    SignalsCleared(g.table, g.os, g.table.order)
  }

  /**
   * clearSignal removes exactly the listed numbers from the pool, leaves the
   * dispatchers of the other numbers as they were, and keeps the pool well
   * formed.
   */
  lemma {:induction false} SignalsClearedRemoves(t: Table, os: OsState, numbers: seq<int>)
    requires Wf(t)
    ensures var r := SignalsCleared(t, os, numbers);
      && Wf(r.table)
      && (forall k :: k in r.table.stacks <==> k in t.stacks && k !in numbers)
      && (forall k :: k in t.stacks && k !in numbers ==> r.table.stacks[k] == t.stacks[k])
    decreases |numbers|
  {
    if numbers != [] {
      var r := SignalStep(t, os, numbers[0]);
      SignalsClearedRemoves(r.table, r.os, numbers[1..]);
      forall k ensures k in numbers <==> k == numbers[0] || k in numbers[1..] {
        if k in numbers && k != numbers[0] {
          var i :| 0 <= i < |numbers| && numbers[i] == k;
          assert numbers[1..][i - 1] == k;
        }
      }
    }
  }

  /**
   * Each dispatcher clearSignal reaches runs restore with no signal number:
   * its previous handler comes back under PREV_RESTORE, and signal 0 is
   * raised under PREV_RECALL when posix_kill exists.
   */
  lemma SignalStepRestores(t: Table, os: OsState, s: int)
    requires s in t.stacks
    ensures SignalStep(t, os, s).os == Restored(t.stacks[s].(subscribers := []), os, None)
  {
    ClearAll(t.stacks[s], os);
  }

  /** clear() leaves the pool with no dispatcher at all. */
  lemma GlobalClearedEmpties(t: Table, os: OsState, modes: map<string, int>, names: seq<string>)
    requires Wf(t)
    ensures GlobalCleared(t, os, modes, names).table.stacks == map[]
  {
    var g := GroupsCleared(t, os, modes, names);
    GroupsClearedWf(t, os, modes, names);
    SignalsClearedRemoves(g.table, g.os, g.table.order);
    var r := SignalsCleared(g.table, g.os, g.table.order);
    assert forall k :: k !in r.table.stacks;
    assert r.table.stacks == map[];
  }

  /** clearGroup keeps the pool well formed. */
  lemma {:induction false} GroupsClearedWf(t: Table, os: OsState, modes: map<string, int>, names: seq<string>)
    requires Wf(t)
    ensures Wf(GroupsCleared(t, os, modes, names).table)
    decreases |names|
  {
    if names != [] {
      if names[0] in modes {
        var r := GroupCleared(t, os, t.order, names[0], modes[names[0]]);
        GroupClearedWf(t, os, t.order, names[0], modes[names[0]]);
        GroupsClearedWf(r.table, r.os, modes - {names[0]}, names[1..]);
      } else {
        GroupsClearedWf(t, os, modes, names[1..]);
      }
    }
  }

  /** A group's clear over the whole pool only ever removes subscribers. */
  lemma GroupClearedShrinks(t: Table, os: OsState, name: string, mode: int, k: int, x: Subscriber)
    requires Wf(t)
    requires x in SubsOf(GroupCleared(t, os, t.order, name, mode).table, k)
    ensures x in SubsOf(t, k)
  {
    GroupClearedKeepsOthers(t, os, t.order, name, mode, k);
    if k in t.order {
      KeptMembers(SubsOf(t, k), [name], x);
    }
  }

  /**
   * After clearGroup, no dispatcher in the pool holds a subscriber of any
   * listed group that was present.
   */
  lemma {:induction false} GroupsClearedPurges(t: Table, os: OsState, modes: map<string, int>, names: seq<string>, k: int, x: Subscriber)
    requires Wf(t)
    requires x in SubsOf(GroupsCleared(t, os, modes, names).table, k)
    ensures forall i :: 0 <= i < |names| && names[i] in modes ==> x.group != names[i]
    decreases |names|
  {
    if names != [] {
      if names[0] in modes {
        var n := names[0];
        var r := GroupCleared(t, os, t.order, n, modes[n]);
        GroupClearedWf(t, os, t.order, n, modes[n]);
        GroupsClearedPurges(r.table, r.os, modes - {n}, names[1..], k, x);
        GroupsClearedShrinks(r.table, r.os, modes - {n}, names[1..], k, x);
        assert Targets(t, SignalList([])) == t.order;
        GroupClearAll(t, os, n, modes[n], k);
        forall i | 0 <= i < |names| && names[i] in modes ensures x.group != names[i] {
          if i > 0 && names[i] != n {
            assert names[1..][i - 1] == names[i];
          }
        }
      } else {
        GroupsClearedPurges(t, os, modes, names[1..], k, x);
        forall i | 0 <= i < |names| && names[i] in modes ensures x.group != names[i] {
          if i > 0 {
            assert names[1..][i - 1] == names[i];
          }
        }
      }
    }
  }

  /** clearGroup only ever removes subscribers. */
  lemma {:induction false} GroupsClearedShrinks(t: Table, os: OsState, modes: map<string, int>, names: seq<string>, k: int, x: Subscriber)
    requires Wf(t)
    requires x in SubsOf(GroupsCleared(t, os, modes, names).table, k)
    ensures x in SubsOf(t, k)
    decreases |names|
  {
    if names != [] {
      if names[0] in modes {
        var n := names[0];
        var r := GroupCleared(t, os, t.order, n, modes[n]);
        GroupClearedWf(t, os, t.order, n, modes[n]);
        GroupsClearedShrinks(r.table, r.os, modes - {n}, names[1..], k, x);
        GroupClearedShrinks(t, os, n, modes[n], k, x);
      } else {
        GroupsClearedShrinks(t, os, modes, names[1..], k, x);
      }
    }
  }

  /**
   * clearGroup keeps every subscriber of a group it was not asked to clear:
   * clearing one group leaves another group's callback on the same signal.
   */
  lemma {:induction false} GroupsClearedKeeps(t: Table, os: OsState, modes: map<string, int>, names: seq<string>, k: int, x: Subscriber)
    requires Wf(t) && x in SubsOf(t, k)
    requires forall i :: 0 <= i < |names| && names[i] in modes ==> x.group != names[i]
    ensures x in SubsOf(GroupsCleared(t, os, modes, names).table, k)
    decreases |names|
  {
    if names != [] {
      if names[0] in modes {
        var n := names[0];
        var r := GroupCleared(t, os, t.order, n, modes[n]);
        GroupClearedWf(t, os, t.order, n, modes[n]);
        GroupClearedKeepsOthers(t, os, t.order, n, modes[n], k);
        KeptMembers(SubsOf(t, k), [n], x);
        assert x in SubsOf(r.table, k);
        forall i | 0 <= i < |names[1..]| && names[1..][i] in modes - {n}
          ensures x.group != names[1..][i]
        {
          assert names[1..][i] == names[i + 1];
        }
        GroupsClearedKeeps(r.table, r.os, modes - {n}, names[1..], k, x);
      } else {
        forall i | 0 <= i < |names[1..]| && names[1..][i] in modes
          ensures x.group != names[1..][i]
        {
          assert names[1..][i] == names[i + 1];
        }
        GroupsClearedKeeps(t, os, modes, names[1..], k, x);
      }
    }
  }
}
