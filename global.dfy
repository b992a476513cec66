/**
 * GlobalHandler: one pool of dispatchers shared by every group it hands out,
 * so a group and `signal(n)` reach the same dispatcher for `n`.
 */
module Global {
  import opened Wrappers
  import opened Os
  import opened DispatchSpec
  import opened Dispatch
  import opened GroupSpec
  import opened GlobalSpec
  import opened Grouping

  /** The groups left after forgetting `list[i]`, given those left after `list[..i]`. */
  lemma ForgetNext<K, V>(start: map<K, V>, before: map<K, V>, after: map<K, V>, list: seq<K>, i: int)
    requires 0 <= i < |list|
    requires forall n :: n in before <==> n in start && n !in list[..i]
    requires forall n :: n in before ==> before[n] == start[n]
    requires after == before - {list[i]}
    ensures forall n :: n in after <==> n in start && n !in list[..i + 1]
    ensures forall n :: n in after ==> after[n] == start[n]
  {
    assert list[..i + 1] == list[..i] + [list[i]];
  }

  class GlobalHandler {
    const pool: Pool
    const mode: int
    /** The keys of the groups array in insertion order, and the groups. */
    var names: seq<string>
    var groups: map<string, GroupHandler>

    /** Every group is keyed by its own name and works over the shared pool. */
    ghost predicate Valid()
      reads this, pool
    {
      && pool.Valid()
      && Distinct(names)
      && (forall i :: 0 <= i < |names| ==> names[i] in groups)
      && (forall n :: n in groups ==> n in names && groups[n].name == n && groups[n].pool == pool)
    }

    /** The mode of each group, by name. */
    ghost function Modes(): map<string, int>
      reads this
    {
      map n | n in groups :: groups[n].mode
    }

    constructor (mode: int)
      ensures Valid() && fresh(pool) && this.mode == mode
      ensures pool.order == [] && pool.entries == map[] && names == [] && groups == map[]
    {
      this.pool := new Pool();
      this.mode := mode;
      this.names := [];
      this.groups := map[];
    }

    /** The group of that name, created over the shared pool on first request only. */
    method Group(name: string, mode: Option<int>) returns (g: GroupHandler)
      requires Valid()
      modifies this
      ensures Valid() && g.pool == pool && g.name == name
      ensures old(name in groups) ==> g == old(groups[name]) && groups == old(groups) && names == old(names)
      ensures !old(name in groups) ==>
        && fresh(g) && g.mode == mode.GetOr(this.mode)
        && groups == old(groups)[name := g] && names == old(names) + [name]
    {
      if name !in groups {
        var created := GroupHandler.WithSignals(name, pool, mode.GetOr(this.mode));
        assert name !in names;
        groups := groups[name := created];
        names := names + [name];
      }
      g := groups[name];
    }

    /** The dispatcher of `signal`, created into the shared pool on first request only. */
    method Signal(signal: int, mode: Option<int>, host: Host) returns (h: SignalHandler)
      requires Valid()
      modifies pool, host
      ensures Valid() && groups == old(groups) && names == old(names)
      ensures signal in pool.entries && h == pool.entries[signal]
      ensures old(signal in pool.entries) ==> h == old(pool.entries[signal])
      ensures (pool.Table(), host.state) == Ensured(old(pool.Table()), old(host.state), signal, mode.GetOr(this.mode))
    {
      if pool.Has(signal) {
        h := pool.entries[signal];
      } else {
        var d := SignalHandler.Factory(signal, mode.GetOr(this.mode), true, host);
        h := d.handler;
        pool.Put(signal, h);
        assert pool.Table().stacks == old(pool.Table()).stacks[signal := h.View()];
      }
    }

    /** `unset($this->groups[$name])`. */
    method Forget(name: string)
      requires Valid()
      modifies this
      ensures Valid() && groups == old(groups) - {name} && names == Without(old(names), name)
      ensures Modes() == old(Modes()) - {name}
    {
      ghost var modes := Modes();
      groups := groups - {name};
      names := Without(names, name);
      assert forall i :: 0 <= i < |names| ==> names[i] in names;
      assert Modes() == modes - {name} by {
        assert Modes().Keys == modes.Keys - {name};
      }
    }

    /** One present name of clearGroup: the group clears itself over the whole pool, then is unset. */
    method DropGroup(name: string, host: Host)
      requires Valid() && name in groups
      modifies this, pool, pool.entries.Values, host
      ensures Valid() && groups == old(groups) - {name} && Modes() == old(Modes()) - {name}
      ensures forall h :: h in pool.entries.Values ==> h in old(pool.entries.Values) || fresh(h)
      ensures var r := GroupCleared(old(pool.Table()), old(host.state), old(pool.Table()).order, name, old(Modes())[name]);
        pool.Table() == r.table && host.state == r.os
    {
      var g := groups[name];
      ghost var t, os := pool.Table(), host.state;
      assert Modes()[name] == g.mode;
      assert Targets(t, SignalList([])) == t.order;
      var _ := g.Clear(SignalList([]), host);
      assert pool.Valid();
      ghost var r := GroupCleared(t, os, t.order, name, g.mode);
      assert pool.Table() == r.table && host.state == r.os;
      Forget(name);
    }

    /** clearGroup: each listed group present is cleared over the whole pool, then forgotten. */
    method ClearGroup(list: seq<string>, host: Host) returns (self: GlobalHandler)
      requires Valid()
      modifies this, pool, pool.entries.Values, host
      ensures self == this && Valid()
      ensures forall n :: n in groups <==> n in old(groups) && n !in list
      ensures forall n :: n in groups ==> groups[n] == old(groups[n])
      ensures forall h :: h in pool.entries.Values ==> h in old(pool.entries.Values) || fresh(h)
      ensures var run := GroupsCleared(old(pool.Table()), old(host.state), old(Modes()), list);
        pool.Table() == run.table && host.state == run.os
    {
      var i := 0;
      while i < |list|
        invariant i <= |list| && Valid()
        invariant forall h :: h in pool.entries.Values ==> h in old(pool.entries.Values) || fresh(h)
        invariant forall n :: n in groups <==> n in old(groups) && n !in list[..i]
        invariant forall n :: n in groups ==> groups[n] == old(groups[n])
        invariant GroupsCleared(pool.Table(), host.state, Modes(), list[i..])
               == GroupsCleared(old(pool.Table()), old(host.state), old(Modes()), list)
      {
        var name := list[i];
        GroupsClearedNext(pool.Table(), host.state, Modes(), list, i);
        ghost var before := groups;
        if name in groups {
          DropGroup(name, host);
        }
        ForgetNext(old(groups), before, groups, list, i);
        i := i + 1;
      }
      assert list[..i] == list;
      self := this;
    }

    /** One present number of clearSignal: its dispatcher clears every subscriber, then is unset. */
    method DropSignal(s: int, host: Host)
      requires Valid() && s in pool.entries
      modifies pool, pool.entries.Values, host
      ensures Valid() && pool.entries.Values <= old(pool.entries.Values)
      ensures var r := SignalStep(old(pool.Table()), old(host.state), s);
        pool.Table() == r.table && host.state == r.os
    {
      var h := pool.entries[s];
      label Found:
      var _ := h.Clear(GroupList([]), host);
      pool.OnlyOneChanged@Found(s);
      pool.Unset(s);
    }

    /** clearSignal: each listed dispatcher present is cleared entirely, then unset. */
    method ClearSignal(numbers: seq<int>, host: Host) returns (self: GlobalHandler)
      requires Valid()
      modifies pool, pool.entries.Values, host
      ensures self == this && Valid() && groups == old(groups) && names == old(names)
      ensures var run := SignalsCleared(old(pool.Table()), old(host.state), numbers);
        pool.Table() == run.table && host.state == run.os
    {
      var i := 0;
      while i < |numbers|
        invariant i <= |numbers| && Valid()
        invariant pool.entries.Values <= old(pool.entries.Values)
        invariant SignalsCleared(pool.Table(), host.state, numbers[i..])
               == SignalsCleared(old(pool.Table()), old(host.state), numbers)
      {
        var s := numbers[i];
        if pool.Has(s) {
          DropSignal(s, host);
        }
        assert numbers[i..][1..] == numbers[i + 1..];
        i := i + 1;
      }
      self := this;
    }

    /** clear: every group, then every dispatcher left, and the pool emptied in place. */
    method Clear(host: Host) returns (self: GlobalHandler)
      requires Valid()
      modifies this, pool, pool.entries.Values, host
      ensures self == this && Valid()
      ensures groups == map[] && names == [] && pool.order == [] && pool.entries == map[]
      ensures host.state == GlobalCleared(old(pool.Table()), old(host.state), old(Modes()), old(names)).os
    {
      ghost var g := GroupsCleared(pool.Table(), host.state, Modes(), names);
      var _ := ClearGroup(names, host);
      var keys := pool.Keys();
      assert pool.Table() == g.table && keys == g.table.order;
      var _ := ClearSignal(keys, host);
      pool.Empty();
      // `$this->groups = []` comes before clearSignal, which never reads the groups.
      groups := map[];
      names := [];
      self := this;
    }
  }
}
