/**
 * SignalHandler: the dispatcher of one signal number. Its subscriber list is
 * updated in place; every method is proved to do what the function of the
 * same operation in DispatchSpec says.
 */
module Dispatch {
  import opened Wrappers
  import opened Os
  import opened Policy
  import opened DispatchSpec
  import opened DispatchProps
  import opened Fallback

  /** What the factory hands out: a real dispatcher, or the fallback. */
  datatype Built = Native(handler: SignalHandler) | Stub(fallback: SignalHandlerFallback)

  class SignalHandler {
    /** The identity of `[$this, 'handle']`, as the OS stores it. */
    const instance: nat
    const signal: int
    const flags: int
    /** The OS handler captured at construction. */
    const previous: Disposition
    var subscribers: seq<Subscriber>

    function View(): Stack
      reads this
    {
      Stack(instance, signal, flags, previous, subscribers)
    }

    /** factory: a dispatcher when pcntl_signal exists, the fallback otherwise. */
    static method Factory(signal: int, flags: int, hasPcntl: bool, host: Host) returns (d: Built)
      modifies host
      ensures hasPcntl ==> (d.Native? && fresh(d.handler)
        && (d.handler.View(), host.state) == Created(old(host.state), signal, flags))
      ensures !hasPcntl ==> d.Stub? && host.state == old(host.state)
    {
      if hasPcntl {
        var h := new SignalHandler(signal, flags, host);
        d := Native(h);
      } else {
        var f := new SignalHandlerFallback();
        d := Stub(f);
      }
    }

    /** Turns on asynchronous signals and captures the current handler as `previous`. */
    constructor (signal: int, flags: int, host: Host)
      modifies host
      ensures (View(), host.state) == Created(old(host.state), signal, flags)
    {
      host.EnableAsyncSignals();
      var id := host.Allocate();
      this.instance := id;
      this.flags := flags;
      this.signal := signal;
      this.subscribers := [];
      this.previous := HandlerOf(host.state, signal);
    }

    predicate IsEmpty()
      reads this
      ensures IsEmpty() <==> |subscribers| == 0
    {
      subscribers == []
    }

    method Append(cb: Callback, options: Options, host: Host) returns (r: Result<SignalHandler, Error>)
      modifies this, host
      ensures var step := Inserted(old(View()), old(host.state), CreateSubscriber(cb, options), false);
        && View() == step.stack && host.state == step.os
        && r == (if step.outcome.Done? then Success(this) else Failure(step.outcome.error))
    {
      if IsEmpty() {
        var installed := Install(host);
        if installed.Failed? {
          return Failure(installed.error);
        }
      }
      subscribers := subscribers + [CreateSubscriber(cb, options)];
      r := Success(this);
    }

    method Prepend(cb: Callback, options: Options, host: Host) returns (r: Result<SignalHandler, Error>)
      modifies this, host
      ensures var step := Inserted(old(View()), old(host.state), CreateSubscriber(cb, options), true);
        && View() == step.stack && host.state == step.os
        && r == (if step.outcome.Done? then Success(this) else Failure(step.outcome.error))
    {
      if IsEmpty() {
        var installed := Install(host);
        if installed.Failed? {
          return Failure(installed.error);
        }
      }
      subscribers := [CreateSubscriber(cb, options)] + subscribers;
      r := Success(this);
    }

    /**
     * Collects the positions of the matching subscribers, then unsets them
     * from the highest to the lowest, since every removal shifts the
     * positions after it.
     */
    method Clear(groups: Groups, host: Host) returns (self: SignalHandler)
      modifies this, host
      ensures self == this
      ensures var step := Cleared(old(View()), old(host.state), groups);
        View() == step.stack && host.state == step.os
    {
      var names := Names(groups);
      var indexes := MatchingIndexes(names);
      // sort($indexes) leaves them as collected: MatchPositionsExact shows they ascend.
      UnsetFromBottom(indexes, names);
      if IsEmpty() {
        Restore(None, host);
      }
      self := this;
    }

    /** The first loop of clear: the positions of the subscribers to remove. */
    method MatchingIndexes(names: seq<string>) returns (indexes: seq<nat>)
      ensures indexes == MatchPositions(subscribers, names)
    {
      indexes := [];
      var key := 0;
      while key < |subscribers|
        invariant key <= |subscribers|
        invariant indexes == MatchPositions(subscribers[..key], names)
      {
        if names == [] || subscribers[key].group in names {
          indexes := indexes + [key];
        }
        assert subscribers[..key + 1][..key] == subscribers[..key];
        key := key + 1;
      }
      assert subscribers[..|subscribers|] == subscribers;
    }

    /**
     * The second loop of clear: pops the highest collected position and
     * unsets it, so the positions still to remove are not shifted.
     */
    method UnsetFromBottom(indexes: seq<nat>, ghost names: seq<string>)
      requires indexes == MatchPositions(subscribers, names)
      modifies this`subscribers
      ensures subscribers == Kept(old(subscribers), names)
    {
      ghost var original := subscribers;
      ghost var bound := |original|;
      assert original[..bound] == original && original[bound..] == [];
      var pending := indexes;
      while pending != []
        invariant bound <= |original|
        invariant pending == MatchPositions(original[..bound], names)
        invariant subscribers == original[..bound] + Kept(original[bound..], names)
        decreases |pending|
      {
        UnsetHighest(original, bound, names, subscribers);
        var index := pending[|pending| - 1];
        pending := pending[..|pending| - 1];
        subscribers := subscribers[..index] + subscribers[index + 1..];
        bound := index;
      }
      UnsetDone(original, bound, names, subscribers);
    }

    /**
     * Calls every subscriber and unsets each one-shot subscriber at the
     * position foreach reports, which stops matching the subscriber's index
     * once an earlier one was removed.
     */
    method Handle(sig: int, info: Info, host: Host) returns (outcome: Outcome)
      modifies this, host
      ensures var step := Handled(old(View()), old(host.state), sig, info);
        View() == step.stack && host.state == step.os && outcome == step.outcome
    {
      var overrun := Traverse(sig, info, host);
      if overrun.Some? {
        return Failed(OffsetOutOfRange(overrun.value));
      }
      if IsEmpty() {
        Restore(Some(sig), host);
      }
      outcome := Done;
    }

    /** The foreach of handle: what it calls, what it unsets, and the offset that throws. */
    method Traverse(sig: int, info: Info, host: Host) returns (overrun: Option<nat>)
      modifies this, host
      ensures var pass := Walk(old(subscribers), 0, 0);
        && subscribers == pass.rest && overrun == pass.overrun
        && host.state == old(host.state).(trace := old(host.state).trace + Calls(pass.fired, sig, info))
    {
      ghost var total := Walk(subscribers, 0, 0);
      ghost var fired: seq<Subscriber> := [];
      var cur, key := 0, 0;
      while cur < |subscribers|
        invariant Resumes(fired, subscribers, cur, key, total)
        invariant host.state == old(host.state).(trace := old(host.state).trace + Calls(fired, sig, info))
        decreases |subscribers| - cur
      {
        var subscriber := subscribers[cur];
        host.Invoke(subscriber.handler, sig, info);
        CallsSnoc(fired, subscriber, sig, info);
        if subscriber.once && key >= |subscribers| {
          ResumesOverrun(fired, subscribers, cur, key, total);
          fired := fired + [subscriber];
          return Some(key);
        }
        ghost var before, at := subscribers, cur;
        if subscriber.once {
          subscribers := subscribers[..key] + subscribers[key + 1..];
          if key != cur {
            cur := cur + 1;
          }
        } else {
          cur := cur + 1;
        }
        ResumesStep(fired, before, at, key, total, subscribers, cur);
        fired := fired + [subscriber];
        key := key + 1;
      }
      ResumesEnd(fired, subscribers, cur, key, total);
      overrun := None;
    }

    method Restore(sig: Option<int>, host: Host)
      modifies host
      ensures host.state == Restored(View(), old(host.state), sig)
    {
      if Restores(flags) {
        host.SetHandler(signal, previous);
      }
      if Recalls(flags) && host.state.hasPosixKill {
        host.Kill(sig.GetOr(0));
      }
    }

    method Install(host: Host) returns (outcome: Outcome)
      modifies host
      ensures Refuses(View()) ==> outcome == Failed(HandlerConflict(signal)) && host.state == old(host.state)
      ensures !Refuses(View()) ==> outcome == Done && host.state == Installed(View(), old(host.state))
    {
      if Truthy(previous) && PrevError == flags {
        return Failed(HandlerConflict(signal));
      }
      host.SetHandler(signal, Dispatcher(instance));
      outcome := Done;
    }
  }
}
