/**
 * The operating-system side of signal handling, kept as state that the
 * dispatchers read and update instead of calling pcntl and posix functions.
 */
module Os {
  /**
   * What pcntl_signal_get_handler reports for a signal: SIG_DFL, SIG_IGN, a
   * callable installed by other code, or the `handle` entry point of one of
   * this library's dispatchers, identified by the dispatcher's instance number.
   */
  datatype Disposition = Default | Ignore | Foreign(callable: nat) | Dispatcher(instance: nat)

  /**
   * PHP truthiness of that value: SIG_DFL is the integer 0, the only falsy
   * one; SIG_IGN is the integer 1 and a callable is an object or a non-empty
   * array, all truthy.
   */
  predicate Truthy(d: Disposition) {
    !d.Default?
  }

  /** The `$info` argument handed to a subscriber (null when absent). */
  datatype Info = NoInfo | SigInfo(id: nat)

  /** One call of a subscriber callback, `($subscriber->handler)($signal, $info)`. */
  datatype Invocation = Invocation(callback: nat, signal: int, info: Info)

  datatype OsState = OsState(
    hasPosixKill: bool,               // function_exists('posix_kill')
    asyncSignals: bool,               // pcntl_async_signals
    handlers: map<int, Disposition>,  // pcntl_signal's table; absent means SIG_DFL
    raised: seq<int>,                 // signals sent to the own process by posix_kill
    trace: seq<Invocation>,           // subscriber callbacks invoked, in order
    nextInstance: nat)                // identity the next dispatcher object receives

  /** pcntl_signal_get_handler */
  function HandlerOf(os: OsState, signal: int): Disposition {
    if signal in os.handlers then os.handlers[signal] else Default
  }

  /** pcntl_signal: only the disposition of `signal` changes. */
  function WithHandler(os: OsState, signal: int, d: Disposition): (r: OsState)
    ensures HandlerOf(r, signal) == d
    ensures forall other :: other != signal ==> HandlerOf(r, other) == HandlerOf(os, other)
    ensures r.raised == os.raised && r.trace == os.trace && r.nextInstance == os.nextInstance
    ensures r.hasPosixKill == os.hasPosixKill && r.asyncSignals == os.asyncSignals
  {
    os.(handlers := os.handlers[signal := d])
  }

  /** The process the model runs in: the one mutable copy of the OS state. */
  class Host {
    var state: OsState

    constructor (initial: OsState)
      ensures state == initial
    {
      state := initial;
    }

    /** pcntl_async_signals(true) */
    method EnableAsyncSignals()
      modifies this
      ensures state == old(state).(asyncSignals := true)
    {
      state := state.(asyncSignals := true);
    }

    /** The identity a newly allocated dispatcher object receives. */
    method Allocate() returns (instance: nat)
      modifies this
      ensures instance == old(state).nextInstance
      ensures state == old(state).(nextInstance := instance + 1)
    {
      instance := state.nextInstance;
      state := state.(nextInstance := instance + 1);
    }

    /** pcntl_signal(signal, d) */
    method SetHandler(signal: int, d: Disposition)
      modifies this
      ensures state == WithHandler(old(state), signal, d)
    {
      state := WithHandler(state, signal, d);
    }

    /** posix_kill(posix_getpid(), signal): recorded, not delivered. */
    method Kill(signal: int)
      modifies this
      ensures state == old(state).(raised := old(state).raised + [signal])
    {
      state := state.(raised := state.raised + [signal]);
    }

    /** A subscriber callback runs; it is opaque and only recorded. */
    method Invoke(callback: nat, signal: int, info: Info)
      modifies this
      ensures state == old(state).(trace := old(state).trace + [Invocation(callback, signal, info)])
    {
      state := state.(trace := state.trace + [Invocation(callback, signal, info)]);
    }
  }
}
