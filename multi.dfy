/**
 * MultiSignalHandler: a fixed, keyed set of dispatchers that append,
 * prepend and clear fan out to, and that handle reaches only through the
 * key equal to the signal number.
 */
module Multi {
  import opened Wrappers
  import opened Os
  import opened DispatchSpec
  import opened Dispatch

  /** The children's states and the OS after a fan-out, and whether a child threw. */
  datatype Fan = Fan(stacks: map<int, Stack>, os: OsState, outcome: Outcome)

  /** append or prepend on each child in key order; the first exception stops the loop. */
  function FanInserted(stacks: map<int, Stack>, os: OsState, keys: seq<int>, sub: Subscriber, atHead: bool): Fan
    requires forall i :: 0 <= i < |keys| ==> keys[i] in stacks
    decreases |keys|
  {
    if keys == [] then Fan(stacks, os, Done)
    else
      var step := Inserted(stacks[keys[0]], os, sub, atHead);
      if step.outcome.Failed? then Fan(stacks, os, step.outcome)
      else FanInserted(stacks[keys[0] := step.stack], step.os, keys[1..], sub, atHead)
  }

  /** clear on each child in key order. */
  function FanCleared(stacks: map<int, Stack>, os: OsState, keys: seq<int>, groups: Groups): Fan
    requires forall i :: 0 <= i < |keys| ==> keys[i] in stacks
    decreases |keys|
  {
    if keys == [] then Fan(stacks, os, Done)
    else
      var step := Cleared(stacks[keys[0]], os, groups);
      FanCleared(stacks[keys[0] := step.stack], step.os, keys[1..], groups)
  }

  /** The children's states once `sub` went to every key of `keys`. */
  function Reached(stacks: map<int, Stack>, keys: seq<int>, sub: Subscriber, atHead: bool): (r: map<int, Stack>)
    ensures r.Keys == stacks.Keys
  {
    map k | k in stacks :: if k in keys then stacks[k].(subscribers := Pushed(stacks[k].subscribers, sub, atHead)) else stacks[k]
  }

  /** append and prepend fan out raise no signal and call no callback. */
  lemma {:induction false} FanInsertedQuiet(stacks: map<int, Stack>, os: OsState, keys: seq<int>, sub: Subscriber, atHead: bool)
    requires forall i :: 0 <= i < |keys| ==> keys[i] in stacks
    ensures var f := FanInserted(stacks, os, keys, sub, atHead);
      f.os.raised == os.raised && f.os.trace == os.trace && f.os.asyncSignals == os.asyncSignals
    decreases |keys|
  {
    if keys != [] {
      var step := Inserted(stacks[keys[0]], os, sub, atHead);
      if step.outcome.Done? {
        FanInsertedQuiet(stacks[keys[0] := step.stack], step.os, keys[1..], sub, atHead);
      }
    }
  }

  /**
   * When no child throws, append and prepend reach every child exactly once,
   * with the same subscriber, and no other entry.
   */
  lemma {:induction false} FanInsertedReachesEach(stacks: map<int, Stack>, os: OsState, keys: seq<int>, sub: Subscriber, atHead: bool)
    requires Distinct(keys)
    requires forall i :: 0 <= i < |keys| ==> keys[i] in stacks
    requires FanInserted(stacks, os, keys, sub, atHead).outcome.Done?
    ensures FanInserted(stacks, os, keys, sub, atHead).stacks == Reached(stacks, keys, sub, atHead)
    decreases |keys|
  {
    if keys == [] {
      assert Reached(stacks, keys, sub, atHead) == stacks;
    } else {
      var step := Inserted(stacks[keys[0]], os, sub, atHead);
      assert Distinct(keys[1..]);
      FanInsertedReachesEach(stacks[keys[0] := step.stack], step.os, keys[1..], sub, atHead);
      ReachedFirst(stacks, keys, sub, atHead, step.stack);
    }
  }

  /**
   * When a child throws, it is one that was empty and refuses to install;
   * the children before it in key order have the subscriber, and it and the
   * rest are untouched.
   */
  lemma {:induction false} FanInsertedStopsAtConflict(stacks: map<int, Stack>, os: OsState, keys: seq<int>, sub: Subscriber, atHead: bool)
    requires Distinct(keys)
    requires forall i :: 0 <= i < |keys| ==> keys[i] in stacks
    requires FanInserted(stacks, os, keys, sub, atHead).outcome.Failed?
    ensures exists j :: (
              && 0 <= j < |keys|
              && stacks[keys[j]].subscribers == [] && Refuses(stacks[keys[j]])
              && FanInserted(stacks, os, keys, sub, atHead).outcome == Failed(HandlerConflict(stacks[keys[j]].signal))
              && FanInserted(stacks, os, keys, sub, atHead).stacks == Reached(stacks, keys[..j], sub, atHead))
    decreases |keys|
  {
    var step := Inserted(stacks[keys[0]], os, sub, atHead);
    if step.outcome.Failed? {
      assert keys[..0] == [];
      assert Reached(stacks, keys[..0], sub, atHead) == stacks;
    } else {
      var next := stacks[keys[0] := step.stack];
      assert Distinct(keys[1..]);
      FanInsertedStopsAtConflict(next, step.os, keys[1..], sub, atHead);
      var f := FanInserted(next, step.os, keys[1..], sub, atHead);
      var j :| 0 <= j < |keys[1..]|
        && next[keys[1..][j]].subscribers == [] && Refuses(next[keys[1..][j]])
        && f.outcome == Failed(HandlerConflict(next[keys[1..][j]].signal))
        && f.stacks == Reached(next, keys[1..][..j], sub, atHead);
      ConflictShifts(stacks, keys, sub, atHead, step.stack, f, j);
      assert FanInserted(stacks, os, keys, sub, atHead) == f;
    }
  }

  /** A conflict found after the first key, seen from before that key's push. */
  lemma ConflictShifts(stacks: map<int, Stack>, keys: seq<int>, sub: Subscriber, atHead: bool, first: Stack, f: Fan, j: int)
    requires Distinct(keys) && 0 <= j < |keys| - 1
    requires forall i :: 0 <= i < |keys| ==> keys[i] in stacks
    requires first == stacks[keys[0]].(subscribers := Pushed(stacks[keys[0]].subscribers, sub, atHead))
    requires var next := stacks[keys[0] := first];
      && next[keys[1..][j]].subscribers == [] && Refuses(next[keys[1..][j]])
      && f.outcome == Failed(HandlerConflict(next[keys[1..][j]].signal))
      && f.stacks == Reached(next, keys[1..][..j], sub, atHead)
    ensures stacks[keys[j + 1]].subscribers == [] && Refuses(stacks[keys[j + 1]])
    ensures f.outcome == Failed(HandlerConflict(stacks[keys[j + 1]].signal))
    ensures f.stacks == Reached(stacks, keys[..j + 1], sub, atHead)
  {
    assert keys[1..][j] == keys[j + 1] != keys[0];
    assert keys[..j + 1][1..] == keys[1..][..j];
    assert Distinct(keys[..j + 1]);
    ReachedFirst(stacks, keys[..j + 1], sub, atHead, first);
  }

  /** Pushing to the first key, then reaching the others, reaches all of them. */
  lemma ReachedFirst(stacks: map<int, Stack>, keys: seq<int>, sub: Subscriber, atHead: bool, first: Stack)
    requires keys != [] && Distinct(keys) && keys[0] in stacks
    requires first == stacks[keys[0]].(subscribers := Pushed(stacks[keys[0]].subscribers, sub, atHead))
    ensures Reached(stacks[keys[0] := first], keys[1..], sub, atHead) == Reached(stacks, keys, sub, atHead)
  {
    assert keys[0] !in keys[1..];
    forall k | k in keys ensures k == keys[0] || k in keys[1..] {
      var i :| 0 <= i < |keys| && keys[i] == k;
      if i > 0 { assert keys[1..][i - 1] == k; }
    }
  }

  /** clear hands the same groups to every child and to no other entry. */
  lemma {:induction false} FanClearedReachesEach(stacks: map<int, Stack>, os: OsState, keys: seq<int>, groups: Groups)
    requires Distinct(keys)
    requires forall i :: 0 <= i < |keys| ==> keys[i] in stacks
    ensures var f := FanCleared(stacks, os, keys, groups);
      && f.outcome == Done
      && f.stacks.Keys == stacks.Keys
      && forall k :: k in stacks ==>
           f.stacks[k] == if k in keys then stacks[k].(subscribers := Kept(stacks[k].subscribers, Names(groups)))
                          else stacks[k]
    decreases |keys|
  {
    if keys != [] {
      var step := Cleared(stacks[keys[0]], os, groups);
      assert Distinct(keys[1..]);
      assert keys[0] !in keys[1..];
      FanClearedReachesEach(stacks[keys[0] := step.stack], step.os, keys[1..], groups);
    }
  }

  /** The fan-out of append or prepend seen from its `i`-th key. */
  lemma FanInsertedNext(stacks: map<int, Stack>, os: OsState, keys: seq<int>, i: int, sub: Subscriber, atHead: bool)
    requires 0 <= i < |keys|
    requires forall j :: 0 <= j < |keys| ==> keys[j] in stacks
    ensures var step := Inserted(stacks[keys[i]], os, sub, atHead);
      FanInserted(stacks, os, keys[i..], sub, atHead)
      == if step.outcome.Failed? then Fan(stacks[keys[i] := step.stack], step.os, step.outcome)
         else FanInserted(stacks[keys[i] := step.stack], step.os, keys[i + 1..], sub, atHead)
  {
    assert keys[i..][1..] == keys[i + 1..];
    assert stacks[keys[i] := stacks[keys[i]]] == stacks;
  }

  /** The fan-out of clear seen from its `i`-th key. */
  lemma FanClearedNext(stacks: map<int, Stack>, os: OsState, keys: seq<int>, i: int, groups: Groups)
    requires 0 <= i < |keys|
    requires forall j :: 0 <= j < |keys| ==> keys[j] in stacks
    ensures var step := Cleared(stacks[keys[i]], os, groups);
      FanCleared(stacks, os, keys[i..], groups) == FanCleared(stacks[keys[i] := step.stack], step.os, keys[i + 1..], groups)
  {
    assert keys[i..][1..] == keys[i + 1..];
  }

  /** A proper subset has fewer elements. */
  lemma {:induction false} ProperSubsetSmaller<T>(a: set<T>, b: set<T>)
    requires a < b
    ensures |a| < |b|
    decreases |a|
  {
    if a == {} {
      var x :| x in b;
    } else {
      var y :| y in a;
      var x :| x in b && x !in a;
      assert x in b - {y} && x !in a - {y};
      ProperSubsetSmaller(a - {y}, b - {y});
    }
  }

  class MultiSignalHandler {
    /** The keys in iteration order, and the dispatcher under each key. */
    const keys: seq<int>
    const children: map<int, SignalHandler>

    /** Keys are unique and each key holds its own dispatcher object. */
    ghost predicate Valid() {
      && Distinct(keys)
      && (forall i :: 0 <= i < |keys| ==> keys[i] in children)
      && (forall k :: k in children ==> k in keys)
      && (forall k, l :: k in children && l in children && k != l ==> children[k] != children[l])
    }

    ghost function Handlers(): set<SignalHandler> {
      children.Values
    }

    ghost function Stacks(): map<int, Stack>
      reads Handlers()
    {
      map k | k in children :: children[k].View()
    }

    /** When only the dispatcher under `k` changed, only that entry of the states changed. */
    twostate lemma OnlyOneChanged(k: int)
      requires Valid() && k in children
      requires forall h :: h in Handlers() && h != children[k] ==> unchanged(h)
      ensures Stacks() == old(Stacks())[k := children[k].View()]
    {
      forall j | j in children && j != k
        ensures children[j].View() == old(children[j].View())
      {
        assert children[j] in Handlers();
      }
    }

    /** The entries are fixed here, and no operation adds or removes one. */
    constructor (keys: seq<int>, children: map<int, SignalHandler>)
      requires Distinct(keys)
      requires forall i :: 0 <= i < |keys| ==> keys[i] in children
      requires forall k :: k in children ==> k in keys
      requires forall k, l :: k in children && l in children && k != l ==> children[k] != children[l]
      ensures Valid() && this.keys == keys && this.children == children
    {
      this.keys := keys;
      this.children := children;
    }

    /** Forwards only to the dispatcher whose key equals the signal number. */
    method Handle(signo: int, info: Info, host: Host) returns (outcome: Outcome)
      requires Valid()
      modifies Handlers(), host
      ensures signo in children ==>
        var step := Handled(old(Stacks())[signo], old(host.state), signo, info);
        Stacks() == old(Stacks())[signo := step.stack] && host.state == step.os && outcome == step.outcome
      ensures signo !in children ==>
        Stacks() == old(Stacks()) && host.state == old(host.state) && outcome == Done
    {
      var i := 0;
      outcome := Done;
      while i < |keys|
        invariant i <= |keys|
        invariant signo !in keys[..i] ==> Stacks() == old(Stacks()) && host.state == old(host.state) && outcome == Done
        invariant signo in keys[..i] ==>
          var step := Handled(old(Stacks())[signo], old(host.state), signo, info);
          Stacks() == old(Stacks())[signo := step.stack] && host.state == step.os && outcome == step.outcome
      {
        if keys[i] == signo {
          var child := children[keys[i]];
          outcome := child.Handle(signo, info, host);
          assert Stacks() == old(Stacks())[signo := child.View()] by {
            assert forall k :: k in children && k != signo ==> children[k] != child;
          }
          if outcome.Failed? {
            return;
          }
        }
        assert keys[..i + 1] == keys[..i] + [keys[i]];
        i := i + 1;
      }
      assert keys[..|keys|] == keys;
    }

    method Append(cb: Callback, options: Options, host: Host) returns (r: Result<MultiSignalHandler, Error>)
      requires Valid()
      modifies Handlers(), host
      ensures var f := FanInserted(old(Stacks()), old(host.state), keys, CreateSubscriber(cb, options), false);
        && Stacks() == f.stacks && host.state == f.os
        && r == (if f.outcome.Done? then Success(this) else Failure(f.outcome.error))
    {
      ghost var sub := CreateSubscriber(cb, options);
      var i := 0;
      while i < |keys|
        invariant i <= |keys|
        invariant FanInserted(Stacks(), host.state, keys[i..], sub, false)
               == FanInserted(old(Stacks()), old(host.state), keys, sub, false)
      {
        var child := children[keys[i]];
        FanInsertedNext(Stacks(), host.state, keys, i, sub, false);
        label Before:
        var res := child.Append(cb, options, host);
        OnlyOneChanged@Before(keys[i]);
        if res.Failure? {
          return Failure(res.error);
        }
        i := i + 1;
      }
      r := Success(this);
    }

    method Prepend(cb: Callback, options: Options, host: Host) returns (r: Result<MultiSignalHandler, Error>)
      requires Valid()
      modifies Handlers(), host
      ensures var f := FanInserted(old(Stacks()), old(host.state), keys, CreateSubscriber(cb, options), true);
        && Stacks() == f.stacks && host.state == f.os
        && r == (if f.outcome.Done? then Success(this) else Failure(f.outcome.error))
    {
      ghost var sub := CreateSubscriber(cb, options);
      var i := 0;
      while i < |keys|
        invariant i <= |keys|
        invariant FanInserted(Stacks(), host.state, keys[i..], sub, true)
               == FanInserted(old(Stacks()), old(host.state), keys, sub, true)
      {
        var child := children[keys[i]];
        FanInsertedNext(Stacks(), host.state, keys, i, sub, true);
        label Before:
        var res := child.Prepend(cb, options, host);
        OnlyOneChanged@Before(keys[i]);
        if res.Failure? {
          return Failure(res.error);
        }
        i := i + 1;
      }
      r := Success(this);
    }

    method Clear(groups: Groups, host: Host) returns (self: MultiSignalHandler)
      requires Valid()
      modifies Handlers(), host
      ensures self == this
      ensures var f := FanCleared(old(Stacks()), old(host.state), keys, groups);
        Stacks() == f.stacks && host.state == f.os
    {
      var i := 0;
      while i < |keys|
        invariant i <= |keys|
        invariant FanCleared(Stacks(), host.state, keys[i..], groups)
               == FanCleared(old(Stacks()), old(host.state), keys, groups)
      {
        var child := children[keys[i]];
        FanClearedNext(Stacks(), host.state, keys, i, groups);
        label Before:
        var _ := child.Clear(groups, host);
        OnlyOneChanged@Before(keys[i]);
        i := i + 1;
      }
      self := this;
    }

    /** count($signals) === count(array_filter($signals, isEmpty)). */
    function IsEmpty(): (empty: bool)
      reads Handlers()
      ensures empty <==> forall k :: k in children ==> children[k].subscribers == []
    {
      var emptied := set k | k in children && children[k].IsEmpty();
      assert emptied == children.Keys <==> forall k :: k in children ==> children[k].subscribers == [] by {
        if forall k :: k in children ==> children[k].subscribers == [] {
          assert forall k :: k in children ==> k in emptied;
        }
      }
      assert emptied != children.Keys ==> |emptied| < |children.Keys| by {
        if emptied != children.Keys {
          ProperSubsetSmaller(emptied, children.Keys);
        }
      }
      |children.Keys| == |emptied|
    }
  }
}
