/**
 * `o.spy(fn)`: a function that records every call made to it (the
 * receiver and arguments), counts the calls and, when it wraps a
 * function, passes each call on to it.
 */
module Spies {
  import opened Common
  import opened Values

  /** One entry of `spy.calls`: `{this, args}`. */
  datatype Call = Call(thisArg: Value, args: seq<Value>)

  /** How a call of a function ends: with a value, or by throwing one. */
  datatype Completion = Normal(value: Value) | Throws(thrown: Value)

  /** The `length` and `name` of a wrapped function. */
  datatype Wrapped = Wrapped(length: nat, name: string)

  class Spy {
    var calls: seq<Call>
    var args: seq<Value>
    var callCount: nat
    /** `spy.this`, `undefined` until the first call. */
    var thisArg: Value
    const wrapped: Option<Wrapped>
    /** The spy's own `length` and `name`: those of the wrapped function, or of `function spy() {}`. */
    const length: nat
    const name: string

    /** `callCount` counts `calls`, and `args` and `this` are those of the latest call. */
    ghost predicate Valid()
      reads this
    {
      && callCount == |calls|
      && (calls == [] ==> args == [] && thisArg == Undefined)
      && (calls != [] ==> args == calls[|calls| - 1].args && thisArg == calls[|calls| - 1].thisArg)
    }

    /** `o.spy(fn)` */
    constructor (fn: Option<Wrapped>)
      ensures Valid()
      ensures calls == [] && args == [] && callCount == 0
      ensures wrapped == fn
      ensures fn.Some? ==> length == fn.value.length && name == fn.value.name
      ensures fn.None? ==> length == 0 && name == "spy"
    {
      calls := [];
      args := [];
      callCount := 0;
      thisArg := Undefined;
      wrapped := fn;
      if fn.Some? {
        length := fn.value.length;
        name := fn.value.name;
      } else {
        length := 0;
        name := "spy";
      }
    }

    /**
     * A call of the spy with receiver `thisv` and arguments `arguments`;
     * `delegated` is how the wrapped function's call ends. The call is
     * recorded before the wrapped function runs, so it stays recorded when
     * that function throws and the exception passes through the spy.
     */
    method Invoke(thisv: Value, arguments: seq<Value>, delegated: Completion) returns (r: Completion)
      requires Valid()
      modifies this
      ensures Valid()
      ensures calls == old(calls) + [Call(thisv, arguments)]
      ensures callCount == old(callCount) + 1
      ensures args == arguments && thisArg == thisv
      ensures r == if wrapped.Some? then delegated else Normal(Undefined)
    {
      thisArg := thisv;
      args := arguments;
      calls := calls + [Call(thisv, args)];
      callCount := callCount + 1;
      r := if wrapped.Some? then delegated else Normal(Undefined);
    }
  }

  /** Two calls are both recorded, in order, and `args` holds the second call's arguments. */
  method TwoCalls(a: Value, b: Value) returns (calls: seq<Call>, args: seq<Value>, count: nat)
    ensures calls == [Call(Undefined, [a]), Call(Null, [a, b])]
    ensures args == [a, b] && count == 2
  {
    var spy := new Spy(None);
    var _ := spy.Invoke(Undefined, [a], Normal(Undefined));
    var _ := spy.Invoke(Null, [a, b], Normal(Undefined));
    calls, args, count := spy.calls, spy.args, spy.callCount;
  }

  /** A wrapped function that throws: the call is still counted and recorded, and the exception comes out of the spy. */
  method ThrowingCall(a: Value, e: Value) returns (r: Completion, calls: seq<Call>, count: nat)
    ensures r == Throws(e)
    ensures calls == [Call(Undefined, [a])] && count == 1
  {
    var spy := new Spy(Some(Wrapped(1, "f")));
    r := spy.Invoke(Undefined, [a], Throws(e));
    calls, count := spy.calls, spy.callCount;
  }
}
