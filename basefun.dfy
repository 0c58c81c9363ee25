/**
  The call-dispatch layer of the bridge: the trampoline the interpreter calls
  for every registered native function, the extraction of typed arguments
  from the stack, the spreading of those arguments into a call, and the
  Lua 5.1 string-push shim.

  `BaseFun::Apply` is modelled by what it can end in (`ApplyOutcome`): a
  normal return with a result count, or one of the four kinds of native
  failure. The interpreter's raising primitives (`lua_error`,
  `luaL_checkudata` on a mismatch, a conversion rule's re-raise callback)
  jump out of the trampoline and are modelled as terminal `Action`s.
*/
module BaseFun {
  import opened Lua

  /** Identity of a conversion rule's re-raise callback (`_lua_check_get`). */
  type CheckGet = nat

  /** What `BaseFun::Apply` can throw, as the trampoline's catch clauses sort it. */
  datatype Failure =
    | ParamErr(index: int, checkedGet: Option<CheckGet>)  // GetParameterFromLuaTypeError
    | UdataErr(index: int, metatableName: string)          // GetUserdataParameterFromLuaTypeError
    | StdErr(what: string)                                 // std::exception
    | Unknown                                              // anything else

  /** How a call of `BaseFun::Apply` ends. */
  datatype ApplyOutcome = Returned(count: int) | Threw(failure: Failure)

  /** How the trampoline hands control back to the interpreter. */
  datatype Action =
    | Return(count: int)                            // return from the C function
    | RaiseParam(checkedGet: CheckGet, index: int)  // the callback reports a bad argument
    | CheckUdata(index: int, tname: string)         // luaL_checkudata(l, index, tname)
    | LuaError(stored: Option<string>)              // lua_error(l), after storing the message if any

  /** The message pushed for a failure that is not a `std::exception`. */
  const UnknownException: string := "<Unknown exception>"

  /**
    `lua51_pushlstring(L, s, len)`: pushes `""` when `len` is zero, whatever
    `s` is (`None` is a null pointer), and otherwise the first `len`
    characters of `s`; returns the pushed string.
  */
  function PushLString51(stack: seq<Value>, s: Option<string>, len: nat): (r: (seq<Value>, string))
    requires if s.Some? then len <= |s.value| else len == 0
    ensures r.0 == stack + [Str(r.1)]
    ensures |r.1| == len
    ensures len == 0 ==> r.1 == ""
    ensures len > 0 ==> r.1 == s.value[..len]
  {
    var pushed := PushLString(stack, if len > 0 then s.value else "", len);
    (pushed, ToString(Top(pushed)).value)
  }

  /** The shim behaves the same for a null source and for any source of length zero. */
  lemma NullSameAsEmpty(stack: seq<Value>, s: string)
    ensures PushLString51(stack, None, 0) == PushLString51(stack, Some(s), 0)
    ensures PushLString51(stack, Some(s), 0) == (stack + [Str("")], "")
  {
  }

  /**
    `Traceback(l)`: turns the message on top of the stack into one followed
    by the interpreter's call-stack text `trace`, pushed above it.
  */
  function Traceback(stack: seq<Value>, trace: string): (r: seq<Value>)
    requires |stack| > 0 && Top(stack).Str?
    ensures |r| == |stack| + 1 && r[..|stack|] == stack
    ensures Top(r).Str? && |Top(stack).s| <= |Top(r).s| && Top(r).s[..|Top(stack).s|] == Top(stack).s
  {
    stack + [Str(Top(stack).s + trace)]
  }

  /**
    `_lua_dispatcher`: runs `Apply` inside the failure boundary, classifies a
    failure there, and only after the boundary raises, in the order
    parameter error, userdata error, `lua_error`. `stack` is the stack as
    `Apply` left it; `lua51` selects the Lua 5.1 string push.
  */
  method Dispatch(stack: seq<Value>, outcome: ApplyOutcome, trace: string, lua51: bool)
    returns (after: seq<Value>, action: Action)
    ensures outcome.Returned? ==> after == stack && action == Return(outcome.count)
    ensures outcome.Threw? ==> !action.Return?
    ensures outcome.Threw? && outcome.failure.ParamErr? && outcome.failure.checkedGet.Some? ==>
              after == stack && action == RaiseParam(outcome.failure.checkedGet.value, outcome.failure.index)
    ensures outcome.Threw? && outcome.failure.ParamErr? && outcome.failure.checkedGet.None? ==>
              after == stack && action == LuaError(None)
    ensures outcome.Threw? && outcome.failure.UdataErr? ==>
              after == stack + [Str(outcome.failure.metatableName)]
              && action == CheckUdata(outcome.failure.index, outcome.failure.metatableName)
    ensures outcome.Threw? && outcome.failure.StdErr? ==>
              after == stack + [Str(outcome.failure.what), Str(outcome.failure.what + trace)]
              && action == LuaError(Some(outcome.failure.what + trace))
    ensures outcome == Threw(Unknown) ==>
              after == stack + [Str(UnknownException), Str(UnknownException + trace)]
              && action == LuaError(Some(UnknownException + trace))
  {
    var raiseParameterConversionError: Option<CheckGet> := None;
    var wrongMetaTable: Option<string> := None;
    var erroneousParameterIndex := 0;
    var stored: Option<string> := None;
    after := stack;
    match outcome {
      case Returned(n) =>
        return after, Return(n);
      case Threw(ParamErr(index, checkedGet)) =>
        raiseParameterConversionError := checkedGet;
        erroneousParameterIndex := index;
      case Threw(UdataErr(index, name)) =>
        if lua51 {
          var pushed := PushLString51(after, Some(name), |name|);
          assert name[..|name|] == name;
          after := pushed.0;
          wrongMetaTable := Some(pushed.1);
        } else {
          after := PushLString(after, name, |name|);
          assert Top(after).s == name;
          wrongMetaTable := ToString(Top(after));
        }
        erroneousParameterIndex := index;
      case Threw(StdErr(what)) =>
        after := Traceback(after + [Str(what)], trace);
        stored := ToString(Top(after));
      case Threw(Unknown) =>
        after := Traceback(after + [Str(UnknownException)], trace);
        stored := ToString(Top(after));
    }
    if raiseParameterConversionError.Some? {
      action := RaiseParam(raiseParameterConversionError.value, erroneousParameterIndex);
    } else if wrongMetaTable.Some? {
      action := CheckUdata(erroneousParameterIndex, wrongMetaTable.value);
    } else {
      action := LuaError(stored);
    }
  }

  /** What a conversion rule (`_check_get`) makes of one stack position. */
  datatype Conv<A> = Got(value: A) | Raised(failure: Failure)

  /** The argument list, or the first position whose conversion failed. */
  datatype Args<A> = Args(values: seq<A>) | BadArg(position: nat, failure: Failure)

  /** The stack positions a conversion was attempted at, in order, and the result. */
  datatype Extraction<A> = Extraction(visited: seq<nat>, args: Args<A>)

  /**
    Extraction of the arguments of types `types[i..]` from stack positions
    `i + 1` onwards, strictly left to right, stopping at the first failure.
  */
  function GetArgsFrom<T, A>(types: seq<T>, read: (T, nat) -> Conv<A>, i: nat): (r: Extraction<A>)
    requires i <= |types|
    decreases |types| - i
    ensures |r.visited| <= |types| - i
    ensures forall j :: 0 <= j < |r.visited| ==> r.visited[j] == i + 1 + j
    ensures r.args.Args? ==>
              && |r.visited| == |types| - i
              && |r.args.values| == |types| - i
              && forall j :: 0 <= j < |types| - i ==> read(types[i + j], i + 1 + j) == Got(r.args.values[j])
    ensures r.args.BadArg? ==>
              && i + 1 <= r.args.position <= |types|
              && |r.visited| == r.args.position - i
              && read(types[r.args.position - 1], r.args.position) == Raised(r.args.failure)
              && forall j :: i <= j < r.args.position - 1 ==> read(types[j], j + 1).Got?
  {
    if i == |types| then
      Extraction([], Args([]))
    else
      match read(types[i], i + 1)
      case Raised(f) => Extraction([i + 1], BadArg(i + 1, f))
      case Got(a) =>
        var rest := GetArgsFrom(types, read, i + 1);
        Extraction([i + 1] + rest.visited,
                   match rest.args
                   case Args(vs) => Args([a] + vs)
                   case BadArg(p, f) => BadArg(p, f))
  }

  /**
    `_get_args<T1..Tk>(state)`: the k-tuple whose element j (from 0) is read
    from stack position j + 1, or the first position that failed; no
    position after it is read.
  */
  function GetArgs<T, A>(types: seq<T>, read: (T, nat) -> Conv<A>): (r: Extraction<A>)
    ensures forall j :: 0 <= j < |r.visited| ==> r.visited[j] == j + 1
    ensures r.args.Args? ==>
              && |r.visited| == |r.args.values| == |types|
              && forall j :: 0 <= j < |types| ==> read(types[j], j + 1) == Got(r.args.values[j])
    ensures r.args.BadArg? ==>
              && 1 <= r.args.position <= |types|
              && |r.visited| == r.args.position
              && read(types[r.args.position - 1], r.args.position) == Raised(r.args.failure)
              && forall j :: 0 <= j < r.args.position - 1 ==> read(types[j], j + 1).Got?
  {
    GetArgsFrom(types, read, 0)
  }

  /**
    Extraction depends on the conversion rule only at the positions it
    visits: two rules that agree there give the same extraction, however
    they differ at the positions after a failure.
  */
  lemma {:induction false} ExtractionIgnoresUnvisited<T, A>(types: seq<T>, read: (T, nat) -> Conv<A>,
                                                            other: (T, nat) -> Conv<A>, i: nat)
    requires i <= |types|
    requires forall j :: i <= j < i + |GetArgsFrom(types, read, i).visited| ==>
               other(types[j], j + 1) == read(types[j], j + 1)
    ensures GetArgsFrom(types, other, i) == GetArgsFrom(types, read, i)
    decreases |types| - i
  {
    if i < |types| {
      assert |GetArgsFrom(types, read, i).visited| >= 1;
      assert other(types[i], i + 1) == read(types[i], i + 1);
      if read(types[i], i + 1).Got? {
        var rest := GetArgsFrom(types, read, i + 1);
        assert GetArgsFrom(types, read, i).visited == [i + 1] + rest.visited;
        forall j | i + 1 <= j < i + 1 + |rest.visited|
          ensures other(types[j], j + 1) == read(types[j], j + 1)
        {
          assert j < i + |GetArgsFrom(types, read, i).visited|;
        }
        ExtractionIgnoresUnvisited(types, read, other, i + 1);
      }
    }
  }

  /** The call `_lift` makes: the parameter list the native function receives, and what it returns. */
  datatype NativeCall<A, R> = NativeCall(params: seq<A>, result: R)

  /**
    `_lift(fun, args)`: calls `fun` with `std::get<N>(args)` in parameter
    position `N`, for every `N` the index builder produces (0 to k - 1).
  */
  function Lift<A, R>(fun: seq<A> -> R, args: seq<A>): (r: NativeCall<A, R>)
    ensures |r.params| == |args|
    ensures forall n :: 0 <= n < |args| ==> r.params[n] == args[n]
    ensures r.result == fun(args)
  {
    var params := seq(|args|, n requires 0 <= n < |args| => args[n]);
    assert params == args;
    NativeCall(params, fun(params))
  }

  /** How a bound native function's `Apply` ends before the trampoline sees it. */
  datatype Applied<A, R> = Called(call: NativeCall<A, R>) | Rejected(failure: Failure)

  /**
    The body of `Apply` for a bound native function: the arguments are read
    with `_get_args`, then spread into the call with `_lift`. A failed
    conversion propagates, and the native function is not called.
  */
  function CallWithArgs<T, A, R>(types: seq<T>, read: (T, nat) -> Conv<A>, fun: seq<A> -> R): (r: Applied<A, R>)
    ensures r.Called? <==> forall j :: 0 <= j < |types| ==> read(types[j], j + 1).Got?
    ensures r.Called? ==>
              && |r.call.params| == |types|
              && (forall n :: 0 <= n < |types| ==> read(types[n], n + 1) == Got(r.call.params[n]))
              && r.call.result == fun(r.call.params)
    ensures r.Rejected? ==>
              exists p :: 0 <= p < |types| && read(types[p], p + 1) == Raised(r.failure)
                          && forall j :: 0 <= j < p ==> read(types[j], j + 1).Got?
  {
    match GetArgs(types, read).args
    case Args(vs) => Called(Lift(fun, vs))
    case BadArg(p, f) =>
      assert read(types[p - 1], p - 1 + 1) == Raised(f);
      Rejected(f)
  }
}
