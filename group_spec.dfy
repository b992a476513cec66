/**
 * The shared pool of dispatchers (an ordered map from signal number to
 * dispatcher, as an ArrayObject is) and what GroupHandler's operations do to
 * it, written as folds over the signal numbers they visit.
 */
module GroupSpec {
  import opened Os
  import opened DispatchSpec
  import opened DispatchProps

  /** The pool's keys in insertion order, and the state of each dispatcher. */
  datatype Table = Table(order: seq<int>, stacks: map<int, Stack>)

  /** Keys are unique, listed once each, and key the dispatcher of that signal. */
  predicate Wf(t: Table) {
    && Distinct(t.order)
    && (forall i :: 0 <= i < |t.order| ==> t.order[i] in t.stacks)
    && (forall k :: k in t.stacks ==> k in t.order && t.stacks[k].signal == k)
  }

  /** The `int|int[]` argument of append, prepend, handle and clear. */
  datatype Signals = Signal(number: int) | SignalList(numbers: seq<int>)

  /** `(array) $signals`. */
  function Listed(signals: Signals): seq<int> {
    match signals
    case Signal(n) => [n]
    case SignalList(ns) => ns
  }

  /** `! $signals`: 0 and the empty array. */
  predicate Falsy(signals: Signals) {
    signals == Signal(0) || signals == SignalList([])
  }

  /** The numbers getSignals visits: every pool key when the argument is falsy. */
  function Targets(t: Table, signals: Signals): seq<int> {
    if Falsy(signals) then t.order else Listed(signals)
  }

  /** The subscribers the pool holds for `k`; none when it holds no dispatcher. */
  function SubsOf(t: Table, k: int): seq<Subscriber> {
    if k in t.stacks then t.stacks[k].subscribers else []
  }

  /** getSignals for one number: a new dispatcher, added last, when the pool has none. */
  function Ensured(t: Table, os: OsState, s: int, mode: int): (r: (Table, OsState))
    ensures s in r.0.stacks && r.0.stacks.Keys == t.stacks.Keys + {s}
    ensures forall k :: SubsOf(r.0, k) == SubsOf(t, k)
    ensures forall k :: k in t.stacks ==> r.0.stacks[k] == t.stacks[k]
    ensures Wf(t) ==> Wf(r.0)
    ensures r.1.raised == os.raised && r.1.trace == os.trace && r.1.handlers == os.handlers
  {
    if s in t.stacks then (t, os)
    else
      var c := Created(os, s, mode);
      assert Wf(t) ==> s !in t.order;
      (Table(t.order + [s], t.stacks[s := c.0]), c.1)
  }

  /** `$list` without `x`. */
  function Without<T(==,!new)>(xs: seq<T>, x: T): (r: seq<T>)
    ensures forall y :: y in r <==> y in xs && y != x
    ensures Distinct(xs) ==> Distinct(r)
  {
    if xs == [] then []
    else if xs[0] == x then Without(xs[1..], x)
    else
      var rest := Without(xs[1..], x);
      assert Distinct(xs) ==> Distinct(xs[1..]) && xs[0] !in rest;
      [xs[0]] + rest
  }

  /** `unset($this->signals[$signal])`. */
  function Removed(t: Table, s: int): (r: Table)
    ensures s !in r.stacks && r.stacks.Keys == t.stacks.Keys - {s}
    ensures Wf(t) ==> Wf(r)
  {
    var order := Without(t.order, s);
    assert Wf(t) ==> forall i :: 0 <= i < |order| ==> order[i] in t.stacks by {
      forall i | Wf(t) && 0 <= i < |order| ensures order[i] in t.stacks {
        assert order[i] in t.order;
      }
    }
    Table(order, t.stacks - {s})
  }

  /** Removing a number forgets whatever its dispatcher had become. */
  lemma RemovedOverwrite(t: Table, s: int, st: Stack)
    ensures Removed(t.(stacks := t.stacks[s := st]), s) == Removed(t, s)
  {
    assert t.stacks[s := st] - {s} == t.stacks - {s};
  }

  /** The pool and the OS after a loop over dispatchers, and whether one threw. */
  datatype Run = Run(table: Table, os: OsState, outcome: Outcome)

  /** One number of append or prepend: getSignals, then the call on its dispatcher. */
  function InsertStep(t: Table, os: OsState, s: int, sub: Subscriber, atHead: bool, mode: int): Run {
    var e := Ensured(t, os, s, mode);
    var step := Inserted(e.0.stacks[s], e.1, sub, atHead);
    if step.outcome.Failed? then Run(e.0, e.1, step.outcome)
    else Run(e.0.(stacks := e.0.stacks[s := step.stack]), step.os, Done)
  }

  /** One step of append or prepend, with the throwing branch written as a no-op update. */
  lemma InsertStepUpdates(t: Table, os: OsState, s: int, sub: Subscriber, atHead: bool, mode: int)
    ensures var e := Ensured(t, os, s, mode);
      var step := Inserted(e.0.stacks[s], e.1, sub, atHead);
      var r := InsertStep(t, os, s, sub, atHead, mode);
      && r.table == e.0.(stacks := e.0.stacks[s := step.stack])
      && r.os == step.os && r.outcome == step.outcome
  {
    var e := Ensured(t, os, s, mode);
    assert e.0.stacks[s := e.0.stacks[s]] == e.0.stacks;
  }

  /**
   * append and prepend: getSignals creates a missing dispatcher just before
   * it is used, so a conflict stops the loop after its dispatcher joined the
   * pool, and the numbers after it are neither created nor reached.
   */
  function GroupInserted(t: Table, os: OsState, targets: seq<int>, sub: Subscriber, atHead: bool, mode: int): Run
    decreases |targets|
  {
    if targets == [] then Run(t, os, Done)
    else
      var r := InsertStep(t, os, targets[0], sub, atHead, mode);
      if r.outcome.Failed? then r
      else GroupInserted(r.table, r.os, targets[1..], sub, atHead, mode)
  }

  /** One number of handle: its dispatcher handles it, if the pool holds one. */
  function HandleStep(t: Table, os: OsState, s: int): Run {
    if s !in t.stacks then Run(t, os, Done)
    else
      var step := Handled(t.stacks[s], os, s, NoInfo);
      Run(t.(stacks := t.stacks[s := step.stack]), step.os, step.outcome)
  }

  /** handle: the listed numbers the pool holds, in order, with no info; nothing is created. */
  function GroupHandled(t: Table, os: OsState, numbers: seq<int>): Run
    decreases |numbers|
  {
    if numbers == [] then Run(t, os, Done)
    else
      var r := HandleStep(t, os, numbers[0]);
      if r.outcome.Failed? then r
      else GroupHandled(r.table, r.os, numbers[1..])
  }

  /** One number of clear: getSignals, clear of this group, and removal once empty. */
  function ClearStep(t: Table, os: OsState, s: int, name: string, mode: int): Run {
    var e := Ensured(t, os, s, mode);
    var step := Cleared(e.0.stacks[s], e.1, Group(name));
    if step.stack.subscribers == [] then Run(Removed(e.0, s), step.os, Done)
    else Run(e.0.(stacks := e.0.stacks[s := step.stack]), step.os, Done)
  }

  /** clear: each target drops this group's subscribers and leaves the pool once empty. */
  function GroupCleared(t: Table, os: OsState, targets: seq<int>, name: string, mode: int): Run
    decreases |targets|
  {
    if targets == [] then Run(t, os, Done)
    else
      var r := ClearStep(t, os, targets[0], name, mode);
      GroupCleared(r.table, r.os, targets[1..], name, mode)
  }

  /** append or prepend seen from its `i`-th target: that target's step, then the rest. */
  lemma GroupInsertedNext(t: Table, os: OsState, targets: seq<int>, i: int, sub: Subscriber, atHead: bool, mode: int)
    requires 0 <= i < |targets|
    ensures var r := InsertStep(t, os, targets[i], sub, atHead, mode);
      GroupInserted(t, os, targets[i..], sub, atHead, mode)
      == if r.outcome.Failed? then r else GroupInserted(r.table, r.os, targets[i + 1..], sub, atHead, mode)
  {
    assert targets[i..][1..] == targets[i + 1..];
  }

  /** clear seen from its `i`-th target: that target's step, then the rest. */
  lemma GroupClearedNext(t: Table, os: OsState, targets: seq<int>, i: int, name: string, mode: int)
    requires 0 <= i < |targets|
    ensures var r := ClearStep(t, os, targets[i], name, mode);
      GroupCleared(t, os, targets[i..], name, mode) == GroupCleared(r.table, r.os, targets[i + 1..], name, mode)
  {
    assert targets[i..][1..] == targets[i + 1..];
  }

  /** append and prepend keep the pool well formed, whether or not one throws. */
  lemma {:induction false} GroupInsertedWf(t: Table, os: OsState, targets: seq<int>, sub: Subscriber, atHead: bool, mode: int)
    requires Wf(t)
    ensures Wf(GroupInserted(t, os, targets, sub, atHead, mode).table)
    decreases |targets|
  {
    if targets != [] {
      var s := targets[0];
      var e := Ensured(t, os, s, mode);
      var r := InsertStep(t, os, s, sub, atHead, mode);
      if r.outcome.Done? {
        GroupInsertedWf(r.table, r.os, targets[1..], sub, atHead, mode);
      }
    }
  }

  /**
   * After append or prepend, every target has a dispatcher and nothing left
   * the pool; the keys that were there keep their places at the front.
   */
  lemma {:induction false} GroupInsertedCovers(t: Table, os: OsState, targets: seq<int>, sub: Subscriber, atHead: bool, mode: int)
    ensures var r := GroupInserted(t, os, targets, sub, atHead, mode);
      && t.stacks.Keys <= r.table.stacks.Keys
      && t.order <= r.table.order
      && (r.outcome.Done? ==> forall i :: 0 <= i < |targets| ==> targets[i] in r.table.stacks)
    decreases |targets|
  {
    if targets != [] {
      var s := targets[0];
      var e := Ensured(t, os, s, mode);
      var r := InsertStep(t, os, s, sub, atHead, mode);
      if r.outcome.Done? {
        GroupInsertedCovers(r.table, r.os, targets[1..], sub, atHead, mode);
        assert forall i :: 1 <= i < |targets| ==> targets[i] == targets[1..][i - 1];
      }
    }
  }

  /** The list after `n` pushes of the same subscriber at the same end. */
  function PushedN(subs: seq<Subscriber>, sub: Subscriber, atHead: bool, n: nat): (r: seq<Subscriber>)
    ensures |r| == |subs| + n
    ensures forall x :: x in r <==> x in subs || (n > 0 && x == sub)
    decreases n
  {
    if n == 0 then subs else PushedN(Pushed(subs, sub, atHead), sub, atHead, n - 1)
  }

  /**
   * When no dispatcher throws, each target's list gets the subscriber once
   * per occurrence of its number among the targets (a repeated number gets
   * it again), at the head or the tail, and no other signal's list changes.
   */
  lemma {:induction false} GroupInsertedPushes(t: Table, os: OsState, targets: seq<int>, sub: Subscriber, atHead: bool, mode: int)
    requires GroupInserted(t, os, targets, sub, atHead, mode).outcome.Done?
    ensures forall k :: (SubsOf(GroupInserted(t, os, targets, sub, atHead, mode).table, k)
      == PushedN(SubsOf(t, k), sub, atHead, multiset(targets)[k]))
    decreases |targets|
  {
    if targets != [] {
      var s := targets[0];
      var r := InsertStep(t, os, s, sub, atHead, mode);
      var rest := GroupInserted(r.table, r.os, targets[1..], sub, atHead, mode);
      assert GroupInserted(t, os, targets, sub, atHead, mode) == rest;
      InsertStepPushes(t, os, s, sub, atHead, mode);
      GroupInsertedPushes(r.table, r.os, targets[1..], sub, atHead, mode);
      PushesCombine(t, r.table, rest.table, targets, sub, atHead);
    }
  }

  /** Chains the first step's push with the pushes of the remaining targets. */
  lemma PushesCombine(t: Table, mid: Table, last: Table, targets: seq<int>, sub: Subscriber, atHead: bool)
    requires targets != []
    requires forall k :: (SubsOf(mid, k) == if k == targets[0] then Pushed(SubsOf(t, k), sub, atHead) else SubsOf(t, k))
    requires forall k :: SubsOf(last, k) == PushedN(SubsOf(mid, k), sub, atHead, multiset(targets[1..])[k])
    ensures forall k :: SubsOf(last, k) == PushedN(SubsOf(t, k), sub, atHead, multiset(targets)[k])
  {
    var s := targets[0];
    assert multiset(targets) == multiset([s]) + multiset(targets[1..]) by {
      assert targets == [s] + targets[1..];
    }
    forall k ensures SubsOf(last, k) == PushedN(SubsOf(t, k), sub, atHead, multiset(targets)[k]) {
      var m := multiset(targets[1..])[k];
      if k == s {
        assert multiset(targets)[k] == m + 1;
        assert PushedN(SubsOf(t, k), sub, atHead, m + 1) == PushedN(Pushed(SubsOf(t, k), sub, atHead), sub, atHead, m);
      } else {
        assert multiset(targets)[k] == m;
      }
    }
  }

  /** One successful step of append or prepend pushes onto its own number's list only. */
  lemma InsertStepPushes(t: Table, os: OsState, s: int, sub: Subscriber, atHead: bool, mode: int)
    requires InsertStep(t, os, s, sub, atHead, mode).outcome.Done?
    ensures forall k :: (SubsOf(InsertStep(t, os, s, sub, atHead, mode).table, k)
      == if k == s then Pushed(SubsOf(t, k), sub, atHead) else SubsOf(t, k))
  {
  }

  /** With no repeated number, each target gets the subscriber exactly once. */
  lemma GroupInsertedPushesOnce(t: Table, os: OsState, targets: seq<int>, sub: Subscriber, atHead: bool, mode: int)
    requires Distinct(targets)
    requires GroupInserted(t, os, targets, sub, atHead, mode).outcome.Done?
    ensures forall k :: (SubsOf(GroupInserted(t, os, targets, sub, atHead, mode).table, k)
      == if k in targets then Pushed(SubsOf(t, k), sub, atHead) else SubsOf(t, k))
  {
    GroupInsertedPushes(t, os, targets, sub, atHead, mode);
    forall k ensures multiset(targets)[k] == if k in targets then 1 else 0 {
      DistinctCount(targets, k);
    }
  }

  /** In a sequence without repeats, an element occurs once or not at all. */
  lemma {:induction false} DistinctCount(xs: seq<int>, k: int)
    requires Distinct(xs)
    ensures multiset(xs)[k] == if k in xs then 1 else 0
    decreases |xs|
  {
    if xs != [] {
      assert xs == [xs[0]] + xs[1..];
      assert multiset(xs) == multiset([xs[0]]) + multiset(xs[1..]);
      assert Distinct(xs[1..]);
      DistinctCount(xs[1..], k);
      if k in xs && k != xs[0] {
        var i :| 0 <= i < |xs| && xs[i] == k;
        assert xs[1..][i - 1] == k;
      }
      if k == xs[0] {
        assert k !in xs[1..];
      }
    }
  }

  /**
   * When append or prepend throws, the number it names is a target whose
   * dispatcher is in the pool with no subscriber: one getSignals had just
   * created, or one left empty, whose mode refuses to install.
   */
  lemma {:induction false} GroupInsertedStrands(t: Table, os: OsState, targets: seq<int>, sub: Subscriber, atHead: bool, mode: int)
    requires Wf(t)
    requires GroupInserted(t, os, targets, sub, atHead, mode).outcome.Failed?
    ensures var r := GroupInserted(t, os, targets, sub, atHead, mode);
      && r.outcome.error.HandlerConflict?
      && r.outcome.error.signal in targets
      && r.outcome.error.signal in r.table.stacks
      && r.table.stacks[r.outcome.error.signal].subscribers == []
      && Refuses(r.table.stacks[r.outcome.error.signal])
    decreases |targets|
  {
    var s := targets[0];
    var e := Ensured(t, os, s, mode);
    var r := InsertStep(t, os, s, sub, atHead, mode);
    if r.outcome.Done? {
      assert Wf(r.table);
      GroupInsertedStrands(r.table, r.os, targets[1..], sub, atHead, mode);
    } else {
      assert e.0.stacks[s].signal == s;
    }
  }

  /** clear keeps the pool well formed. */
  lemma {:induction false} GroupClearedWf(t: Table, os: OsState, targets: seq<int>, name: string, mode: int)
    requires Wf(t)
    ensures Wf(GroupCleared(t, os, targets, name, mode).table)
    decreases |targets|
  {
    if targets != [] {
      var s := targets[0];
      var e := Ensured(t, os, s, mode);
      var r := ClearStep(t, os, s, name, mode);
      GroupClearedWf(r.table, r.os, targets[1..], name, mode);
    }
  }

  /**
   * clear with any target list, repeats included, seen from one number `k`:
   * a target keeps exactly its subscribers of other groups, in order, and
   * stays in the pool if and only if it keeps one; any other number's
   * dispatcher is untouched.
   */
  lemma {:induction false} GroupClearedKeepsOthers(t: Table, os: OsState, targets: seq<int>, name: string, mode: int, k: int)
    ensures var r := GroupCleared(t, os, targets, name, mode);
      && SubsOf(r.table, k) == (if k in targets then Kept(SubsOf(t, k), [name]) else SubsOf(t, k))
      && (k in r.table.stacks <==> if k in targets then SubsOf(r.table, k) != [] else k in t.stacks)
      && (k !in targets && k in t.stacks ==> r.table.stacks[k] == t.stacks[k])
    decreases |targets|
  {
    if targets != [] {
      var s := targets[0];
      var e := Ensured(t, os, s, mode);
      var r := ClearStep(t, os, s, name, mode);
      GroupClearedKeepsOthers(r.table, r.os, targets[1..], name, mode, k);
      if k in targets && k != s {
        var i :| 0 <= i < |targets| && targets[i] == k;
        assert targets[1..][i - 1] == k;
      }
      if k == s {
        // a repeated signal is cleared again, which changes nothing more
        KeptIdempotent(SubsOf(t, k), [name]);
      }
      if k !in targets {
        assert k !in targets[1..];
      }
    }
  }

  /**
   * clear() of a group over a well-formed pool, seen from one number `k`:
   * afterwards its dispatcher, if still in the pool, holds a subscriber, and
   * none of that group.
   */
  lemma GroupClearAll(t: Table, os: OsState, name: string, mode: int, k: int)
    requires Wf(t)
    ensures var r := GroupCleared(t, os, Targets(t, SignalList([])), name, mode);
      && (k in r.table.stacks ==> r.table.stacks[k].subscribers != [])
      && forall x :: x in SubsOf(r.table, k) ==> x.group != name
  {
    var r := GroupCleared(t, os, t.order, name, mode);
    GroupClearedKeepsOthers(t, os, t.order, name, mode, k);
    forall x | x in SubsOf(r.table, k) ensures x.group != name {
      KeptMembers(SubsOf(t, k), [name], x);
    }
  }

  /** handle reaches only dispatchers the pool holds; absent numbers change nothing. */
  lemma {:induction false} GroupHandledAbsent(t: Table, os: OsState, numbers: seq<int>)
    requires forall i :: 0 <= i < |numbers| ==> numbers[i] !in t.stacks
    ensures GroupHandled(t, os, numbers) == Run(t, os, Done)
    decreases |numbers|
  {
    if numbers != [] {
      GroupHandledAbsent(t, os, numbers[1..]);
    }
  }

  /** handle never adds a dispatcher to the pool, nor removes one. */
  lemma {:induction false} GroupHandledKeepsKeys(t: Table, os: OsState, numbers: seq<int>)
    ensures GroupHandled(t, os, numbers).table.order == t.order
    ensures GroupHandled(t, os, numbers).table.stacks.Keys == t.stacks.Keys
    decreases |numbers|
  {
    if numbers != [] {
      var r := HandleStep(t, os, numbers[0]);
      GroupHandledKeepsKeys(r.table, r.os, numbers[1..]);
    }
  }
}
