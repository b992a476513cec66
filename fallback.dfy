/**
 * SignalHandlerFallback: the stand-in the factory returns when pcntl_signal
 * does not exist. It has no fields, so no call can influence a later one.
 */
module Fallback {
  import opened Os
  import opened DispatchSpec

  class SignalHandlerFallback {
    constructor ()
    {
    }

    /** handle calls no callback and touches no OS state. */
    method Handle(signal: int, info: Info, host: Host)
      ensures host.state == old(host.state)
    {
    }

    /** append returns the receiver and registers nothing. */
    method Append(cb: Callback, options: Options) returns (self: SignalHandlerFallback)
      ensures self == this
    {
      self := this;
    }

    /** prepend returns the receiver and registers nothing. */
    method Prepend(cb: Callback, options: Options) returns (self: SignalHandlerFallback)
      ensures self == this
    {
      self := this;
    }

    /** clear returns the receiver. */
    method Clear(groups: Groups) returns (self: SignalHandlerFallback)
      ensures self == this
    {
      self := this;
    }

    /** isEmpty is true whatever was appended or prepended before. */
    method IsEmpty() returns (empty: bool)
      ensures empty
    {
      empty := true;
    }
  }
}
