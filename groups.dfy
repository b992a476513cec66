/**
 * GroupHandler: a named view on a pool of dispatchers that it may share with
 * other groups. Its subscribers carry its name, so clearing it leaves the
 * other groups' subscribers on the same signals in place.
 */
module Grouping {
  import opened Wrappers
  import opened Os
  import opened DispatchSpec
  import opened Dispatch
  import opened GroupSpec

  /** The ArrayObject of dispatchers keyed by signal number, in insertion order. */
  class Pool {
    var order: seq<int>
    var entries: map<int, SignalHandler>

    ghost predicate Valid()
      reads this
    {
      && Distinct(order)
      && (forall i :: 0 <= i < |order| ==> order[i] in entries)
      && (forall k :: k in entries ==> k in order && entries[k].signal == k)
    }

    ghost function Table(): Table
      reads this, entries.Values
    {
      GroupSpec.Table(order, map k | k in entries :: entries[k].View())
    }

    /** A valid pool is a well-formed table, and holds one object per key. */
    lemma ValidTable()
      requires Valid()
      ensures Wf(Table())
      ensures forall k, l :: k in entries && l in entries && k != l ==> entries[k] != entries[l]
    {
    }

    /** When only the dispatcher under `s` changed, only that entry of the table changed. */
    twostate lemma OnlyOneChanged(s: int)
      requires old(Valid()) && unchanged(this) && s in entries
      requires forall h :: h in entries.Values && h != entries[s] ==> unchanged(h)
      ensures Table() == old(Table()).(stacks := old(Table()).stacks[s := entries[s].View()])
    {
      forall k | k in entries && k != s
        ensures entries[k].View() == old(entries[k].View())
      {
        assert entries[k] in entries.Values;
      }
    }

    constructor ()
      ensures Valid() && order == [] && entries == map[]
    {
      order := [];
      entries := map[];
    }

    /** `isset($signals[$k])`: entries are never null. */
    predicate Has(k: int)
      reads this
    {
      k in entries
    }

    /** `array_keys($signals->getArrayCopy())`. */
    method Keys() returns (keys: seq<int>)
      ensures keys == order
    {
      keys := order;
    }

    /** `$signals[$k] = $h` for a key not present: it goes last. */
    method Put(k: int, h: SignalHandler)
      requires k !in entries
      modifies this
      ensures order == old(order) + [k] && entries == old(entries)[k := h]
    {
      order := order + [k];
      entries := entries[k := h];
    }

    /** `unset($signals[$k])`. */
    method Unset(k: int)
      modifies this
      ensures order == Without(old(order), k) && entries == old(entries) - {k}
      ensures Table() == Removed(old(Table()), k)
      ensures old(Valid()) ==> Valid()
      ensures entries.Values <= old(entries.Values)
    {
      order := Without(order, k);
      entries := entries - {k};
    }

    /** `exchangeArray([])`. */
    method Empty()
      modifies this
      ensures order == [] && entries == map[]
    {
      order := [];
      entries := map[];
    }
  }

  class GroupHandler {
    const name: string
    const mode: int
    const pool: Pool

    ghost predicate Valid()
      reads this, pool
    {
      pool.Valid()
    }

    /** new GroupHandler($name, $mode): an empty pool of its own. */
    constructor (name: string, mode: int)
      ensures this.name == name && this.mode == mode
      ensures fresh(pool) && pool.order == [] && pool.entries == map[]
    {
      this.name := name;
      this.mode := mode;
      this.pool := new Pool();
    }

    /** The constructor withSignals uses: the pool is the one it is given. */
    constructor Sharing(name: string, pool: Pool, mode: int)
      ensures this.name == name && this.mode == mode && this.pool == pool
    {
      this.name := name;
      this.mode := mode;
      this.pool := pool;
    }

    /** withSignals with an ArrayObject: the group shares that very pool. */
    static method WithSignals(name: string, pool: Pool, mode: int) returns (g: GroupHandler)
      ensures fresh(g) && g.name == name && g.mode == mode && g.pool == pool
    {
      g := new GroupHandler.Sharing(name, pool, mode);
    }

    method GetName() returns (n: string)
      ensures n == name
    {
      n := name;
    }

    /** The body of getSignals for one number: create and store a dispatcher if none. */
    method Ensure(s: int, host: Host) returns (h: SignalHandler)
      requires Valid()
      modifies pool, host
      ensures Valid()
      ensures s in pool.entries && h == pool.entries[s]
      ensures old(s in pool.entries) ==> pool.entries == old(pool.entries) && pool.order == old(pool.order)
      ensures !old(s in pool.entries) ==> fresh(h) && pool.entries == old(pool.entries)[s := h]
      ensures (pool.Table(), host.state) == Ensured(old(pool.Table()), old(host.state), s, mode)
    {
      if pool.Has(s) {
        h := pool.entries[s];
      } else {
        var d := SignalHandler.Factory(s, mode, true, host);
        h := d.handler;
        pool.Put(s, h);
        assert pool.Table().stacks == old(pool.Table()).stacks[s := h.View()];
      }
    }

    /** The numbers getSignals walks: a snapshot of the pool keys when `signals` is falsy. */
    method TargetsOf(signals: Signals) returns (targets: seq<int>)
      ensures targets == Targets(pool.Table(), signals)
    {
      if Falsy(signals) {
        targets := pool.Keys();
      } else {
        targets := Listed(signals);
      }
    }

    /** One number of append or prepend: getSignals, then the call on that dispatcher. */
    method Push(s: int, cb: Callback, atHead: bool, host: Host) returns (res: Result<SignalHandler, Error>)
      requires Valid()
      modifies pool, pool.entries.Values, host
      ensures Valid()
      ensures forall h :: h in pool.entries.Values ==> h in old(pool.entries.Values) || fresh(h)
      ensures var r := InsertStep(old(pool.Table()), old(host.state), s, Subscriber(cb, name, false), atHead, mode);
        && pool.Table() == r.table && host.state == r.os
        && (if r.outcome.Done? then res.Success? else res.Failure? && r.outcome == Failed(res.error))
    {
      var h := Ensure(s, host);
      label Found:
      if atHead {
        res := h.Prepend(cb, Options(Some(name), None), host);
      } else {
        res := h.Append(cb, Options(Some(name), None), host);
      }
      pool.OnlyOneChanged@Found(s);
      InsertStepUpdates(old(pool.Table()), old(host.state), s, Subscriber(cb, name, false), atHead, mode);
    }

    /** append: every target, in order, gets a subscriber of this group at the tail. */
    method Append(signals: Signals, cb: Callback, host: Host) returns (r: Result<GroupHandler, Error>)
      requires Valid()
      modifies pool, pool.entries.Values, host
      ensures Valid()
      ensures var run := GroupInserted(old(pool.Table()), old(host.state), Targets(old(pool.Table()), signals),
                                       Subscriber(cb, name, false), false, mode);
        && pool.Table() == run.table && host.state == run.os
        && r == (if run.outcome.Done? then Success(this) else Failure(run.outcome.error))
    {
      var targets := TargetsOf(signals);
      var i := 0;
      while i < |targets|
        invariant i <= |targets| && Valid()
        invariant forall h :: h in pool.entries.Values ==> h in old(pool.entries.Values) || fresh(h)
        invariant GroupInserted(pool.Table(), host.state, targets[i..], Subscriber(cb, name, false), false, mode)
               == GroupInserted(old(pool.Table()), old(host.state), targets, Subscriber(cb, name, false), false, mode)
      {
        GroupInsertedNext(pool.Table(), host.state, targets, i, Subscriber(cb, name, false), false, mode);
        var res := Push(targets[i], cb, false, host);
        if res.Failure? {
          return Failure(res.error);
        }
        i := i + 1;
      }
      r := Success(this);
    }

    /** prepend: every target, in order, gets a subscriber of this group at the head. */
    method Prepend(signals: Signals, cb: Callback, host: Host) returns (r: Result<GroupHandler, Error>)
      requires Valid()
      modifies pool, pool.entries.Values, host
      ensures Valid()
      ensures var run := GroupInserted(old(pool.Table()), old(host.state), Targets(old(pool.Table()), signals),
                                       Subscriber(cb, name, false), true, mode);
        && pool.Table() == run.table && host.state == run.os
        && r == (if run.outcome.Done? then Success(this) else Failure(run.outcome.error))
    {
      var targets := TargetsOf(signals);
      var i := 0;
      while i < |targets|
        invariant i <= |targets| && Valid()
        invariant forall h :: h in pool.entries.Values ==> h in old(pool.entries.Values) || fresh(h)
        invariant GroupInserted(pool.Table(), host.state, targets[i..], Subscriber(cb, name, false), true, mode)
               == GroupInserted(old(pool.Table()), old(host.state), targets, Subscriber(cb, name, false), true, mode)
      {
        GroupInsertedNext(pool.Table(), host.state, targets, i, Subscriber(cb, name, false), true, mode);
        var res := Push(targets[i], cb, true, host);
        if res.Failure? {
          return Failure(res.error);
        }
        i := i + 1;
      }
      r := Success(this);
    }

    /** handle: each listed number the pool holds is handled by its dispatcher, with no info. */
    method Handle(signals: Signals, host: Host) returns (outcome: Outcome)
      requires Valid()
      modifies pool.entries.Values, host
      ensures Valid()
      ensures var run := GroupHandled(old(pool.Table()), old(host.state), Listed(signals));
        pool.Table() == run.table && host.state == run.os && outcome == run.outcome
    {
      var numbers := Listed(signals);
      var i := 0;
      while i < |numbers|
        invariant i <= |numbers| && Valid()
        invariant pool.entries == old(pool.entries) && pool.order == old(pool.order)
        invariant GroupHandled(pool.Table(), host.state, numbers[i..])
               == GroupHandled(old(pool.Table()), old(host.state), numbers)
      {
        var s := numbers[i];
        if pool.Has(s) {
          var h := pool.entries[s];
          label Found:
          outcome := h.Handle(s, NoInfo, host);
          pool.OnlyOneChanged@Found(s);
          if outcome.Failed? {
            return;
          }
        }
        assert numbers[i..][1..] == numbers[i + 1..];
        i := i + 1;
      }
      outcome := Done;
    }

    /** One number of clear: getSignals, clear of this group, and unset once empty. */
    method ClearOne(s: int, host: Host)
      requires Valid()
      modifies pool, pool.entries.Values, host
      ensures Valid()
      ensures forall h :: h in pool.entries.Values ==> h in old(pool.entries.Values) || fresh(h)
      ensures var r := ClearStep(old(pool.Table()), old(host.state), s, name, mode);
        pool.Table() == r.table && host.state == r.os
    {
      var h := Ensure(s, host);
      ghost var e := pool.Table();
      label Found:
      var _ := h.Clear(Group(name), host);
      pool.OnlyOneChanged@Found(s);
      if h.IsEmpty() {
        pool.Unset(s);
        RemovedOverwrite(e, s, h.View());
      }
    }

    /** clear: every target loses this group's subscribers; emptied dispatchers leave the pool. */
    method Clear(signals: Signals, host: Host) returns (self: GroupHandler)
      requires Valid()
      modifies pool, pool.entries.Values, host
      ensures self == this && Valid()
      ensures forall h :: h in pool.entries.Values ==> h in old(pool.entries.Values) || fresh(h)
      ensures var run := GroupCleared(old(pool.Table()), old(host.state), Targets(old(pool.Table()), signals), name, mode);
        pool.Table() == run.table && host.state == run.os
    {
      var targets := TargetsOf(signals);
      var i := 0;
      while i < |targets|
        invariant i <= |targets| && Valid()
        invariant forall h :: h in pool.entries.Values ==> h in old(pool.entries.Values) || fresh(h)
        invariant GroupCleared(pool.Table(), host.state, targets[i..], name, mode)
               == GroupCleared(old(pool.Table()), old(host.state), targets, name, mode)
      {
        GroupClearedNext(pool.Table(), host.state, targets, i, name, mode);
        ClearOne(targets[i], host);
        i := i + 1;
      }
      self := this;
    }
  }
}
