/** Properties of one dispatcher's operations, proved on the functions of DispatchSpec. */
module DispatchProps {
  import opened Wrappers
  import opened Os
  import opened Policy
  import opened DispatchSpec

  // ---- append / prepend / install ------------------------------------------

  /**
   * append adds exactly one subscriber at the tail and prepend one at the
   * head, the others unchanged and in order; only the subscribers change.
   */
  lemma InsertedPlacesOne(st: Stack, os: OsState, sub: Subscriber, atHead: bool)
    requires !(st.subscribers == [] && Refuses(st))
    ensures var r := Inserted(st, os, sub, atHead);
      && r.outcome == Done
      && r.stack == st.(subscribers := r.stack.subscribers)
      && |r.stack.subscribers| == |st.subscribers| + 1
      && (!atHead ==> r.stack.subscribers[..|st.subscribers|] == st.subscribers
                      && r.stack.subscribers[|st.subscribers|] == sub)
      && (atHead ==> r.stack.subscribers[0] == sub && r.stack.subscribers[1..] == st.subscribers)
  {
    var r := Inserted(st, os, sub, atHead);
    if !atHead {
      assert r.stack.subscribers == st.subscribers + [sub];
      assert (st.subscribers + [sub])[..|st.subscribers|] == st.subscribers;
    } else {
      assert r.stack.subscribers == [sub] + st.subscribers;
      assert ([sub] + st.subscribers)[1..] == st.subscribers;
    }
  }

  /**
   * install runs only when the stack was empty; after a successful insert
   * into an empty stack the OS handler of the signal is this dispatcher,
   * and an insert into a non-empty stack leaves the OS alone.
   */
  lemma InstallOnlyWhenEmpty(st: Stack, os: OsState, sub: Subscriber, atHead: bool)
    ensures var r := Inserted(st, os, sub, atHead);
      && (st.subscribers != [] ==> r.os == os && r.outcome == Done)
      && (st.subscribers == [] && r.outcome == Done ==>
            HandlerOf(r.os, st.signal) == Dispatcher(st.instance)
            && forall other :: other != st.signal ==> HandlerOf(r.os, other) == HandlerOf(os, other))
  {
  }

  /**
   * In PREV_ERROR mode with a truthy previous handler the first insert
   * throws and changes neither the stack nor the OS; SIG_IGN counts as
   * truthy. Any other mode never throws.
   */
  lemma ConflictChangesNothing(st: Stack, os: OsState, sub: Subscriber, atHead: bool)
    requires st.subscribers == []
    ensures var r := Inserted(st, os, sub, atHead);
      && (r.outcome.Failed? <==> st.flags == PrevError && st.previous != Default)
      && (r.outcome.Failed? ==> r.outcome.error == HandlerConflict(st.signal) && r.stack == st && r.os == os)
  {
  }

  // ---- restore ------------------------------------------------------------

  /**
   * restore by flag bits: the PREV_RESTORE bit puts back the handler
   * captured at construction, the PREV_RECALL bit raises the signal (0 when
   * none is pending) if posix_kill exists; nothing else changes.
   */
  lemma RestoreByFlags(st: Stack, os: OsState, signal: Option<int>)
    ensures var r := Restored(st, os, signal);
      && HandlerOf(r, st.signal) == (if Restores(st.flags) then st.previous else HandlerOf(os, st.signal))
      && (forall other :: other != st.signal ==> HandlerOf(r, other) == HandlerOf(os, other))
      && r.raised == (if Recalls(st.flags) && os.hasPosixKill then os.raised + [signal.GetOr(0)] else os.raised)
      && r.trace == os.trace && r.nextInstance == os.nextInstance
  {
  }

  /** PREV_ERROR contains the PREV_RESTORE bit: an error-mode dispatcher restores too. */
  lemma ErrorModeRestoresPrevious(st: Stack, os: OsState, signal: Option<int>)
    requires st.flags == PrevError
    ensures HandlerOf(Restored(st, os, signal), st.signal) == st.previous
    ensures Restored(st, os, signal).raised == os.raised
  {
  }

  /** PREV_REPLACE shares no bit with PREV_RESTORE or PREV_RECALL: restore does nothing. */
  lemma ReplaceModeRestoresNothing(st: Stack, os: OsState, signal: Option<int>)
    requires st.flags == PrevReplace
    ensures Restored(st, os, signal) == os
  {
  }

  // ---- clear --------------------------------------------------------------

  /** clear keeps exactly the subscribers whose group is not named. */
  lemma {:induction false} KeptMembers(subs: seq<Subscriber>, names: seq<string>, x: Subscriber)
    ensures x in Kept(subs, names) <==> x in subs && !Matches(x, names)
    decreases |subs|
  {
    if subs != [] {
      KeptMembers(subs[1..], names, x);
      assert subs == [subs[0]] + subs[1..];
    }
  }

  /** With no names, clear removes everything. */
  lemma {:induction false} KeptNothing(subs: seq<Subscriber>)
    ensures Kept(subs, []) == []
    decreases |subs|
  {
    if subs != [] {
      KeptNothing(subs[1..]);
    }
  }

  /** Clearing distributes over concatenation. */
  lemma {:induction false} KeptAppend(a: seq<Subscriber>, b: seq<Subscriber>, names: seq<string>)
    ensures Kept(a + b, names) == Kept(a, names) + Kept(b, names)
    decreases |a|
  {
    if a == [] {
      assert a + b == b;
    } else {
      assert (a + b)[0] == a[0];
      assert (a + b)[1..] == a[1..] + b;
      KeptAppend(a[1..], b, names);
    }
  }

  /** Subscribers of other groups survive clear untouched and in order. */
  lemma {:induction false} KeptUnmatched(subs: seq<Subscriber>, names: seq<string>)
    requires forall i :: 0 <= i < |subs| ==> !Matches(subs[i], names)
    ensures Kept(subs, names) == subs
    decreases |subs|
  {
    if subs != [] {
      KeptUnmatched(subs[1..], names);
      assert subs == [subs[0]] + subs[1..];
    }
  }

  /** Clearing the same groups twice removes nothing more. */
  lemma {:induction false} KeptIdempotent(subs: seq<Subscriber>, names: seq<string>)
    ensures Kept(Kept(subs, names), names) == Kept(subs, names)
    decreases |subs|
  {
    if subs != [] {
      KeptIdempotent(subs[1..], names);
      var tail := Kept(subs[1..], names);
      if !Matches(subs[0], names) {
        assert Kept(subs, names) == [subs[0]] + tail;
        assert ([subs[0]] + tail)[0] == subs[0];
        assert ([subs[0]] + tail)[1..] == tail;
      } else {
        assert Kept(subs, names) == [] + tail == tail;
      }
    }
  }

  /**
   * The collected positions are ascending (so `sort` leaves them as they
   * are), in range, and are exactly the positions of matching subscribers.
   */
  lemma {:induction false} MatchPositionsExact(subs: seq<Subscriber>, names: seq<string>)
    ensures var ps := MatchPositions(subs, names);
      && (forall i, j :: 0 <= i < j < |ps| ==> ps[i] < ps[j])
      && (forall p :: p in ps <==> 0 <= p < |subs| && Matches(subs[p], names))
    decreases |subs|
  {
    if subs != [] {
      var init := subs[..|subs| - 1];
      MatchPositionsExact(init, names);
      forall p | 0 <= p < |init| ensures init[p] == subs[p] { }
      var before := MatchPositions(init, names);
      forall i | 0 <= i < |before| ensures before[i] < |init| {
        assert before[i] in before;
      }
    }
  }

  /**
   * The last collected position: it matches, nothing between it and the
   * bound matches, and the positions before it are what remains to pop.
   */
  lemma {:induction false} LastMatch(subs: seq<Subscriber>, bound: nat, names: seq<string>)
    requires bound <= |subs|
    requires MatchPositions(subs[..bound], names) != []
    ensures var ps := MatchPositions(subs[..bound], names);
      var i := ps[|ps| - 1];
      && i < bound
      && Matches(subs[i], names)
      && (forall k :: i < k < bound ==> !Matches(subs[k], names))
      && MatchPositions(subs[..i], names) == ps[..|ps| - 1]
    decreases bound
  {
    var prefix := subs[..bound];
    assert prefix[..bound - 1] == subs[..bound - 1];
    if !Matches(subs[bound - 1], names) {
      LastMatch(subs, bound - 1, names);
    }
  }

  /** No collected positions below the bound: nothing there matches. */
  lemma {:induction false} NoMatchBelow(subs: seq<Subscriber>, bound: nat, names: seq<string>)
    requires bound <= |subs|
    requires MatchPositions(subs[..bound], names) == []
    ensures forall k :: 0 <= k < bound ==> !Matches(subs[k], names)
    decreases bound
  {
    if bound > 0 {
      assert subs[..bound][..bound - 1] == subs[..bound - 1];
      NoMatchBelow(subs, bound - 1, names);
    }
  }

  /** Removing a matching subscriber followed by non-matching ones, as one pop of clear does. */
  lemma KeptAfterMatch(subs: seq<Subscriber>, i: nat, bound: nat, names: seq<string>)
    requires i < bound <= |subs|
    requires Matches(subs[i], names)
    requires forall k :: i < k < bound ==> !Matches(subs[k], names)
    ensures Kept(subs[i..], names) == subs[i + 1..bound] + Kept(subs[bound..], names)
  {
    assert subs[i..][0] == subs[i];
    assert subs[i..][1..] == subs[i + 1..];
    assert subs[i + 1..] == subs[i + 1..bound] + subs[bound..];
    KeptAppend(subs[i + 1..bound], subs[bound..], names);
    KeptUnmatched(subs[i + 1..bound], names);
  }

  /**
   * One pop of clear's second loop: unsetting the highest position still
   * collected turns "removed above the bound" into "removed above that position".
   */
  lemma UnsetHighest(original: seq<Subscriber>, bound: nat, names: seq<string>, current: seq<Subscriber>)
    requires bound <= |original|
    requires MatchPositions(original[..bound], names) != []
    requires current == original[..bound] + Kept(original[bound..], names)
    ensures var ps := MatchPositions(original[..bound], names);
      var i := ps[|ps| - 1];
      && i < bound && i < |current|
      && MatchPositions(original[..i], names) == ps[..|ps| - 1]
      && current[..i] + current[i + 1..] == original[..i] + Kept(original[i..], names)
  {
    var ps := MatchPositions(original[..bound], names);
    LastMatch(original, bound, names);
    UnsetAt(original, ps[|ps| - 1], bound, names, current);
  }

  /** Unsetting a matching position `i` with no match between it and the bound. */
  lemma UnsetAt(original: seq<Subscriber>, i: nat, bound: nat, names: seq<string>, current: seq<Subscriber>)
    requires i < bound <= |original|
    requires Matches(original[i], names)
    requires forall k :: i < k < bound ==> !Matches(original[k], names)
    requires current == original[..bound] + Kept(original[bound..], names)
    ensures current[..i] + current[i + 1..] == original[..i] + Kept(original[i..], names)
  {
    var mid := original[i + 1..bound];
    var tail := Kept(original[bound..], names);
    SplitAround(original, i, bound);
    assert current == original[..i] + [original[i]] + (mid + tail);
    KeptAfterMatch(original, i, bound, names);
    DropOne(original[..i], original[i], mid + tail);
  }

  /** A prefix cut around position `i`. */
  lemma SplitAround(s: seq<Subscriber>, i: nat, bound: nat)
    requires i < bound <= |s|
    ensures s[..bound] == s[..i] + [s[i]] + s[i + 1..bound]
  {
  }

  /** Unsetting position |a| of a + [x] + b leaves a + b. */
  lemma DropOne(a: seq<Subscriber>, x: Subscriber, b: seq<Subscriber>)
    ensures var s := a + [x] + b; s[..|a|] + s[|a| + 1..] == a + b
  {
    var s := a + [x] + b;
    assert s[..|a|] == a;
    assert s[|a| + 1..] == b;
  }

  /** When no position is left to pop, what remains is exactly what clear keeps. */
  lemma UnsetDone(original: seq<Subscriber>, bound: nat, names: seq<string>, current: seq<Subscriber>)
    requires bound <= |original|
    requires MatchPositions(original[..bound], names) == []
    requires current == original[..bound] + Kept(original[bound..], names)
    ensures current == Kept(original, names)
  {
    NoMatchBelow(original, bound, names);
    KeptUnmatched(original[..bound], names);
    KeptAppend(original[..bound], original[bound..], names);
    assert original == original[..bound] + original[bound..];
  }

  /** clear reaches restore whenever the stack ends up empty, even if it removed nothing. */
  lemma ClearRestoresWhenEmpty(st: Stack, os: OsState, groups: Groups)
    requires Kept(st.subscribers, Names(groups)) == []
    ensures Cleared(st, os, groups).os == Restored(st.(subscribers := []), os, None)
  {
  }

  /** clear with an empty list of groups removes every subscriber and restores. */
  lemma ClearAll(st: Stack, os: OsState)
    ensures Cleared(st, os, GroupList([])).stack == st.(subscribers := [])
    ensures Cleared(st, os, GroupList([])).os == Restored(st.(subscribers := []), os, None)
  {
    KeptNothing(st.subscribers);
  }

  // ---- handle -------------------------------------------------------------

  /**
   * The foreach of handle stands on node `cur` at position `key`, having
   * called `fired` so far, and the rest of the walk completes `total`.
   */
  ghost predicate Resumes(fired: seq<Subscriber>, subs: seq<Subscriber>, cur: nat, key: nat, total: Pass) {
    && cur <= key
    && fired + Walk(subs, cur, key).fired == total.fired
    && Walk(subs, cur, key).rest == total.rest
    && Walk(subs, cur, key).overrun == total.overrun
  }

  /** One iteration that does not throw keeps the walk on course. */
  lemma ResumesStep(fired: seq<Subscriber>, subs: seq<Subscriber>, cur: nat, key: nat, total: Pass,
                    subs': seq<Subscriber>, cur': nat)
    requires Resumes(fired, subs, cur, key, total) && cur < |subs|
    requires subs[cur].once ==> key < |subs|
    requires subs' == if subs[cur].once then subs[..key] + subs[key + 1..] else subs
    requires cur' == if subs[cur].once && key == cur then cur else cur + 1
    ensures Resumes(fired + [subs[cur]], subs', cur', key + 1, total)
  {
    var p := Walk(subs', cur', key + 1);
    assert Walk(subs, cur, key) == Pass([subs[cur]] + p.fired, p.rest, p.overrun);
    assert fired + ([subs[cur]] + p.fired) == (fired + [subs[cur]]) + p.fired;
  }

  /** A one-shot subscriber whose position is past the end: the walk throws there. */
  lemma ResumesOverrun(fired: seq<Subscriber>, subs: seq<Subscriber>, cur: nat, key: nat, total: Pass)
    requires Resumes(fired, subs, cur, key, total) && cur < |subs|
    requires subs[cur].once && key >= |subs|
    ensures total == Pass(fired + [subs[cur]], subs, Some(key))
  {
  }

  /** Past the last node the walk is complete. */
  lemma ResumesEnd(fired: seq<Subscriber>, subs: seq<Subscriber>, cur: nat, key: nat, total: Pass)
    requires Resumes(fired, subs, cur, key, total) && cur >= |subs|
    ensures total == Pass(fired, subs, None)
  {
  }

  /** One more call at the end of the trace. */
  lemma CallsSnoc(fired: seq<Subscriber>, sub: Subscriber, signal: int, info: Info)
    ensures Calls(fired + [sub], signal, info) == Calls(fired, signal, info) + [Invocation(sub.handler, signal, info)]
  {
  }

  /** Without one-shot subscribers from `cur` on, the foreach calls them all and removes none. */
  lemma {:induction false} WalkWithoutOnce(subs: seq<Subscriber>, cur: nat, key: nat)
    requires cur <= key && cur <= |subs|
    requires forall i :: cur <= i < |subs| ==> !subs[i].once
    ensures Walk(subs, cur, key) == Pass(subs[cur..], subs, None)
    decreases |subs| - cur
  {
    if cur < |subs| {
      WalkWithoutOnce(subs, cur + 1, key + 1);
      assert subs[cur..] == [subs[cur]] + subs[cur + 1..];
    }
  }

  /**
   * With exactly one one-shot subscriber, at `j`, a pass calls every
   * subscriber in order and removes that one only.
   */
  lemma {:induction false} WalkSingleOnce(subs: seq<Subscriber>, j: nat, cur: nat)
    requires cur <= j < |subs|
    requires forall i :: 0 <= i < |subs| ==> (subs[i].once <==> i == j)
    ensures Walk(subs, cur, cur) == Pass(subs[cur..], subs[..j] + subs[j + 1..], None)
    decreases j - cur
  {
    if cur < j {
      WalkSingleOnce(subs, j, cur + 1);
      assert subs[cur..] == [subs[cur]] + subs[cur + 1..];
    } else {
      var rest := subs[..j] + subs[j + 1..];
      forall i | j <= i < |rest| ensures !rest[i].once {
        assert rest[i] == subs[i + 1];
      }
      WalkWithoutOnce(rest, j, j + 1);
      assert rest[j..] == subs[j + 1..];
      assert subs[j..] == [subs[j]] + subs[j + 1..];
    }
  }

  /** handle without one-shot subscribers calls them all in order and changes nothing else. */
  lemma HandleWithoutOnce(st: Stack, os: OsState, signal: int, info: Info)
    requires st.subscribers != []
    requires forall i :: 0 <= i < |st.subscribers| ==> !st.subscribers[i].once
    ensures Handled(st, os, signal, info) == Step(st, os.(trace := os.trace + Calls(st.subscribers, signal, info)), Done)
  {
    WalkWithoutOnce(st.subscribers, 0, 0);
    assert st.subscribers[0..] == st.subscribers;
  }

  /**
   * handle with exactly one one-shot subscriber calls all subscribers in
   * order and removes that one; a later handle calls the others only and
   * changes the stack no further, so the one-shot callback fires once.
   */
  lemma HandleSingleOnce(st: Stack, os: OsState, signal: int, info: Info, j: nat, os2: OsState, info2: Info)
    requires j < |st.subscribers|
    requires forall i :: 0 <= i < |st.subscribers| ==> (st.subscribers[i].once <==> i == j)
    ensures var first := Handled(st, os, signal, info);
      var rest := st.subscribers[..j] + st.subscribers[j + 1..];
      && first.outcome == Done
      && first.stack == st.(subscribers := rest)
      && first.os.trace == os.trace + Calls(st.subscribers, signal, info)
      && st.subscribers[j] !in rest
      && var second := Handled(first.stack, os2, signal, info2);
         && second.outcome == Done
         && second.stack == first.stack
         && second.os.trace == os2.trace + Calls(rest, signal, info2)
  {
    var subs := st.subscribers;
    WalkSingleOnce(subs, j, 0);
    assert subs[0..] == subs;
    var rest := subs[..j] + subs[j + 1..];
    forall i | 0 <= i < |rest| ensures !rest[i].once {
      if i < j { assert rest[i] == subs[i]; } else { assert rest[i] == subs[i + 1]; }
    }
    WalkWithoutOnce(rest, 0, 0);
    assert rest[0..] == rest;
  }

  /** A run of persistent subscribers from `cur` up to `j` is called in order and removes nothing. */
  lemma {:induction false} WalkSkip(subs: seq<Subscriber>, cur: nat, key: nat, j: nat)
    requires cur <= key && cur <= j <= |subs|
    requires forall i :: cur <= i < j ==> !subs[i].once
    ensures var p := Walk(subs, j, key + (j - cur));
      Walk(subs, cur, key) == Pass(subs[cur..j] + p.fired, p.rest, p.overrun)
    decreases j - cur
  {
    if cur < j {
      WalkSkip(subs, cur + 1, key + 1, j);
      assert subs[cur..j] == [subs[cur]] + subs[cur + 1..j];
    }
  }

  /**
   * As written, with exactly two one-shot subscribers, at `i` and `j`, all
   * subscribers up to `j` fire and `i` is unset. The second unset names
   * position `j` of the shortened list: when `j` is the last position it is
   * past the end and the list throws, leaving `j` registered; otherwise it
   * removes the subscriber after `j`, which never fires, and `j` stays.
   */
  lemma TwoOnce(subs: seq<Subscriber>, i: nat, j: nat)
    requires i < j < |subs|
    requires forall k :: 0 <= k < |subs| ==> (subs[k].once <==> k == i || k == j)
    ensures j == |subs| - 1 ==>
      Walk(subs, 0, 0) == Pass(subs, subs[..i] + subs[i + 1..], Some(j))
    ensures j < |subs| - 1 ==>
      Walk(subs, 0, 0) == Pass(subs[..j + 1] + subs[j + 2..], subs[..i] + subs[i + 1..j + 1] + subs[j + 2..], None)
  {
    if j == |subs| - 1 {
      TwoOnceLast(subs, i, j);
    } else {
      TwoOnceInner(subs, i, j);
    }
  }

  /** TwoOnce when the second one-shot subscriber is the last one. */
  lemma TwoOnceLast(subs: seq<Subscriber>, i: nat, j: nat)
    requires i < j == |subs| - 1
    requires forall k :: 0 <= k < |subs| ==> (subs[k].once <==> k == i || k == j)
    ensures Walk(subs, 0, 0) == Pass(subs, subs[..i] + subs[i + 1..], Some(j))
  {
    TwoOnceReaches(subs, i, j);
    var s1 := subs[..i] + subs[i + 1..];
    FirstOnceShifts(subs, i, j, s1);
    LastOnce(s1, j - 1);
    Joined(subs, i, j);
    assert subs[..j + 1] == subs;
  }

  /** TwoOnce when a subscriber follows the second one-shot subscriber. */
  lemma TwoOnceInner(subs: seq<Subscriber>, i: nat, j: nat)
    requires i < j < |subs| - 1
    requires forall k :: 0 <= k < |subs| ==> (subs[k].once <==> k == i || k == j)
    ensures Walk(subs, 0, 0) == Pass(subs[..j + 1] + subs[j + 2..], subs[..i] + subs[i + 1..j + 1] + subs[j + 2..], None)
  {
    TwoOnceReaches(subs, i, j);
    SecondOnceInner(subs, i, j);
    Joined(subs, i, j);
  }

  /** With a subscriber after it, the second one-shot subscriber unsets that one instead. */
  lemma SecondOnceInner(subs: seq<Subscriber>, i: nat, j: nat)
    requires i < j < |subs| - 1
    requires forall k :: 0 <= k < |subs| ==> (subs[k].once <==> k == i || k == j)
    ensures Walk(subs[..i] + subs[i + 1..], j - 1, j)
         == Pass([subs[j]] + subs[j + 2..], subs[..i] + subs[i + 1..j + 1] + subs[j + 2..], None)
  {
    var s1 := subs[..i] + subs[i + 1..];
    FirstOnceShifts(subs, i, j, s1);
    LastOnce(s1, j - 1);
    Joined(subs, i, j);
  }

  /** Up to the second one-shot subscriber: everything before it fired, and only `i` is unset. */
  lemma TwoOnceReaches(subs: seq<Subscriber>, i: nat, j: nat)
    requires i < j < |subs|
    requires forall k :: 0 <= k < |subs| ==> (subs[k].once <==> k == i || k == j)
    ensures var r := Walk(subs[..i] + subs[i + 1..], j - 1, j);
      Walk(subs, 0, 0) == Pass(subs[..i] + [subs[i]] + subs[i + 1..j] + r.fired, r.rest, r.overrun)
  {
    var s1 := subs[..i] + subs[i + 1..];
    FirstOnceShifts(subs, i, j, s1);
    WalkSkip(subs, 0, 0, i);
    WalkSkip(s1, i, i + 1, j - 1);
    var w, b, q, r := Walk(subs, 0, 0), Walk(subs, i, i), Walk(s1, i, i + 1), Walk(s1, j - 1, j);
    assert subs[0..i] == subs[..i];
    assert w.fired == subs[..i] + b.fired && w.rest == b.rest && w.overrun == b.overrun;
    assert b.fired == [subs[i]] + q.fired && b.rest == q.rest && b.overrun == q.overrun;
    assert q.fired == subs[i + 1..j] + r.fired && q.rest == r.rest && q.overrun == r.overrun;
    Regroup(subs[..i], subs[i], subs[i + 1..j], r.fired);
  }

  /** Regrouping a concatenation around one element. */
  lemma Regroup(a: seq<Subscriber>, x: Subscriber, c: seq<Subscriber>, d: seq<Subscriber>)
    ensures a + ([x] + (c + d)) == a + [x] + c + d
  {
  }

  /** After the first one-shot subscriber is unset, the list is shifted by one from `i` on. */
  lemma FirstOnceShifts(subs: seq<Subscriber>, i: nat, j: nat, s1: seq<Subscriber>)
    requires i < j < |subs|
    requires forall k :: 0 <= k < |subs| ==> (subs[k].once <==> k == i || k == j)
    requires s1 == subs[..i] + subs[i + 1..]
    ensures |s1| == |subs| - 1
    ensures forall k :: i <= k < j - 1 ==> !s1[k].once
    ensures s1[j - 1] == subs[j] && s1[j - 1].once
    ensures forall k :: j <= k < |s1| ==> !s1[k].once
    ensures s1[i..j - 1] == subs[i + 1..j]
    ensures s1[..j] == subs[..i] + subs[i + 1..j + 1]
    ensures s1[j..] == subs[j + 1..]
    ensures j + 1 < |subs| ==> s1[j + 1..] == subs[j + 2..]
  {
    assert forall k :: i <= k < |s1| ==> s1[k] == subs[k + 1];
  }

  /** The one-shot subscriber at `c`, the last one, unset at position `c + 1`. */
  lemma LastOnce(s: seq<Subscriber>, c: nat)
    requires c < |s| && s[c].once
    requires forall k :: c < k < |s| ==> !s[k].once
    ensures c + 1 == |s| ==> Walk(s, c, c + 1) == Pass([s[c]], s, Some(c + 1))
    ensures c + 1 < |s| ==> Walk(s, c, c + 1) == Pass([s[c]] + s[c + 2..], s[..c + 1] + s[c + 2..], None)
  {
    if c + 1 < |s| {
      var s2 := s[..c + 1] + s[c + 2..];
      forall k | c + 1 <= k < |s2| ensures !s2[k].once {
        assert s2[k] == s[k + 1];
      }
      WalkWithoutOnce(s2, c + 1, c + 2);
      assert s2[c + 1..] == s[c + 2..];
    }
  }

  /** The sequence bookkeeping of TwoOnce. */
  lemma Joined(subs: seq<Subscriber>, i: nat, j: nat)
    requires i < j < |subs|
    ensures subs[..i] + [subs[i]] + subs[i + 1..j] + [subs[j]] == subs[..j + 1]
    ensures j + 1 < |subs| ==> subs[..i] + [subs[i]] + subs[i + 1..j] + ([subs[j]] + subs[j + 2..]) == subs[..j + 1] + subs[j + 2..]
    ensures j + 1 < |subs| ==>
      (subs[..i] + subs[i + 1..])[..j] + (subs[..i] + subs[i + 1..])[j + 1..] == subs[..i] + subs[i + 1..j + 1] + subs[j + 2..]
  {
    if j + 1 < |subs| {
      var s1 := subs[..i] + subs[i + 1..];
      assert s1[..j] == subs[..i] + subs[i + 1..j + 1];
      assert s1[j + 1..] == subs[j + 2..];
    }
  }

  /**
   * As written, a second one-shot subscriber in the same pass is unset at
   * the shifted position: for two one-shot subscribers the list holds one
   * element when `$key` is 1, the linked list throws, and the second
   * subscriber stays registered.
   */
  lemma TwoOnceOverrun(a: Subscriber, b: Subscriber)
    requires a.once && b.once
    ensures Walk([a, b], 0, 0) == Pass([a, b], [b], Some(1))
  {
  }

  /**
   * As written, with one-shot subscribers a, b followed by persistent c, d,
   * the second unset removes c, which never fires: the pass calls a, b, d.
   */
  lemma SecondOnceRemovesNeighbour(a: Subscriber, b: Subscriber, c: Subscriber, d: Subscriber)
    requires a.once && b.once && !c.once && !d.once
    ensures Walk([a, b, c, d], 0, 0) == Pass([a, b, d], [b, d], None)
  {
    assert [a, b, c, d][..0] + [a, b, c, d][1..] == [b, c, d];
    assert [b, c, d][..1] + [b, c, d][2..] == [b, d];
    assert Walk([b, d], 2, 3) == Pass([], [b, d], None);
    assert Walk([b, d], 1, 2) == Pass([d], [b, d], None);
    assert Walk([b, c, d], 0, 1) == Pass([b, d], [b, d], None);
  }
}
