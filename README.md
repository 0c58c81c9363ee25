# Selene native-call dispatch and `sel::State`, modelled in Dafny

Selene is a C++ binding for Lua. It lets native C++ functions be called from
Lua scripts. This project models two of its headers:

- `include/selene/BaseFun.h` holds the call path. `_lua_dispatcher` is the
  trampoline that Lua calls for every registered native function. It runs
  `BaseFun::Apply` inside a `try` and sorts what was thrown into four kinds.
  It raises only after the `catch` clauses have closed, in a fixed order.
  `_get_args` reads the typed arguments from stack positions 1..k, left to
  right. `_lift` spreads them into the native call. `lua51_pushlstring` is the
  Lua 5.1 string-push shim.
- `include/selene/State.h` holds the owner of an interpreter, `sel::State`:
  owning and borrowing constructors, move, destructor, `Load`, `OpenLib` and
  `operator()`. It also holds the Lua 5.1 back-ports of `luaL_getsubtable` and
  `luaL_requiref` (section 5.1 of the Lua 5.2 Reference Manual).

The interpreter itself is abstract (module `Lua`, file `lua.dfy`):

- values form a datatype;
- the stack is a `seq` whose last element is index -1;
- tables are `map`s from string keys to values, held in a heap of tables,
  and storing `Nil` removes a key;
- every table reachable from the stack or from a table exists (no dangling
  references);
- `class Interp` holds the stack, the tables, the registry, the globals table
  and a closed flag, and provides the stack and table primitives the shims
  use.

Module `BaseFun` (`basefun.dfy`) models the call path. Module `LuaState`
(`state.dfy`) models the shims and the `State` class.

What code outside this model supplies is passed in as parameters:

- the outcome of `Apply`;
- a conversion rule's result at each position;
- the status codes and error values of `luaL_loadfile`, `luaL_loadstring` and
  `lua_pcall`;
- the value `luaL_newstate` returns;
- the traceback text;
- the module an opener returns.

Raising primitives jump out of the trampoline (`lua_error`, a conversion
rule's re-raise callback, and `luaL_checkudata` on a mismatch). Each one is a
terminal `Action`.

Three details of the code that the model keeps:

- The dispatcher tests the re-raise callback pointer before calling it. A
  parameter error whose callback is null therefore falls through to
  `lua_error`, which raises whatever `Apply` left on top of the stack
  (`Action.LuaError(None)`).
- The raise for a userdata error is `luaL_checkudata`, called with a name
  that the userdata's metatable did not match. The model treats it as
  terminal and does not model a check that passes after all.
- `operator()` passes the value of `luaL_dostring` to the handler as the
  status. That macro is the C `||` of `luaL_loadstring` and `lua_pcall`, so
  the handler receives 1 on every failure, not the load or run status
  (`LuaState.DoStringFailed`).

## Model

| member | source | states |
|---|---|---|
| `BaseFun.Dispatch` | include/selene/BaseFun.h:27-64 | On a normal return, the count is returned unchanged and the stack is untouched. Every failure ends in a raise, never a return. A parameter error with a callback pushes nothing and raises through that callback with exactly the captured index. With a null callback it falls through to `lua_error`. A userdata error pushes exactly the metatable name, then checks the userdata at the captured index against that same name. This holds on both the 5.1 path and the 5.2 path. A `std::exception` pushes `what()` and then the message with the traceback appended, and stores that combined message. An unknown failure does the same with `"<Unknown exception>"`. The parameter branch is tested before the userdata branch, and `lua_error` is the fallback. |
| `BaseFun.PushLString51` | include/selene/BaseFun.h:18-22 | Pushes exactly one string and returns it. That string has length `len`. It is `""` when `len == 0`, whatever the source (null included). Otherwise it is the first `len` characters of the source. |
| `BaseFun.NullSameAsEmpty` | include/selene/BaseFun.h:18-22 | A null source and any source of length zero push the same string and return the same string, `""`. |
| `BaseFun.GetArgsFrom` | include/selene/BaseFun.h:80-83 | Positions are visited in increasing order from `i + 1`. On success, element j comes from position `i + 1 + j` and there are exactly `k - i` elements. On failure at position p, every earlier position converted, position p raised the reported failure, and no position after p was visited. |
| `BaseFun.GetArgs` | include/selene/BaseFun.h:85-89 | Either a k-tuple whose element j (counting from 0) is read from stack position j + 1, in declaration order, or the first failing position p. In the failure case only positions 1..p were read, and no partial tuple is returned. |
| `BaseFun.ExtractionIgnoresUnvisited` | include/selene/BaseFun.h:80-89 | Two conversion rules that agree on the positions extraction visits give the same extraction. Positions after a failure are never relied on (proved by induction). |
| `BaseFun.Lift` | include/selene/BaseFun.h:66-77 | The native function receives exactly as many parameters as the tuple has elements, parameter N is element N of the tuple, and the result is what the native function returns for them. |
| `BaseFun.CallWithArgs` | include/selene/BaseFun.h:66-89 | Reading the arguments and then spreading them calls the native function exactly when every position converts. Its parameter N is then the value converted at stack position N + 1. Otherwise the native function is not called, and the failure raised is the one at the first position that failed. |
| `Lua.TypeOf` | include/selene/State.h:17-18 | The type tag that the 5.1 `lua_getfield` shim returns is `TNil` exactly for nil and `TTable` exactly for tables. |
| `Lua.Interp.GetField` | include/selene/State.h:17-18 | Pushes `t[k]` and returns the type tag of the pushed value. Nothing else changes. |
| `LuaState.GetSubtable` | include/selene/State.h:20-33 | If `t[name]` is a table, it returns 1, leaves every table unchanged and pushes that table. Otherwise it returns 0, stores a fresh empty table at `t[name]` and pushes it. Either way the stack grows by exactly one, and afterwards `t[name]` is the pushed table. |
| `LuaState.ReplaceWithNewTable` | include/selene/State.h:27-32 | Pops the non-table, stores a fresh empty table under `name` in `t` with the next free identity, and leaves that table on the stack. No other table changes. |
| `LuaState.CacheModule` | include/selene/State.h:38-45 | The opener is called exactly when `_LOADED[modname]` is nil, on the current tables. Its result is then stored in the `_LOADED` table on the stack as the opener left it, and every other entry of every table is as the opener left it. Otherwise the cached module is used and no table changes. Either way the module ends up above `_LOADED`. |
| `LuaState.CallAndCache` | include/selene/State.h:39-44 | Pops the nil, calls the opener once on the current tables and stores its result under `modname` in the `_LOADED` table below it. The tables are then exactly those the opener left with that one entry set, and the stack holds `_LOADED` and the module. The interpreter invariant is kept. |
| `LuaState.LoadAndCache` | include/selene/State.h:36-45 | Finds or creates `_LOADED`, then leaves it and the module on the stack. The opener is called exactly when `_LOADED[modname]` was nil, on the tables `_LOADED` then exists in (`WithLoaded`). The resulting tables are exactly those the opener left (or the tables with `_LOADED` in place, when it is not called) with `modname` set to the module in the `_LOADED` table found or created before the call. |
| `LuaState.RequireF` | include/selene/State.h:34-51 | The Lua 5.1 back-port. The opener is called at most once: it is called exactly when `_LOADED[modname]` was nil. The net stack effect is exactly the module pushed. The resulting tables are exactly `Opened(..).heap`, that is the tables the opener left, or the current tables with `_LOADED` in place when it is not called, with two entries set to the module: `modname` in the `_LOADED` table found or created before the call, and `_G[modname]` when `glb` is set. So every table the opener creates is kept, a created `_LOADED` holds only what the opener and the cache put there, and nothing else changes. If the registry still designates that `_LOADED` table once the module is cached, `_LOADED[modname]` reads as the module afterwards. |
| `LuaState.BindAndReplace` | include/selene/State.h:46-50 | With `glb` the global `modname` is bound to the module on top, and no other table changes. The module then replaces `_LOADED` on the stack, so the stack is one shorter. |
| `LuaState.RequireTwice` | include/selene/State.h:34-51 | Two loads of the same module that is, or whose opener returns, a non-nil value push it twice, provided the opener leaves the registry's `_LOADED` where it was. Only the first load calls the opener, and only if the module was not cached before. |
| `LuaState.Describe` | include/selene/State.h:112-116 | The handler gets the error string when the error value is a string, and the fallback message otherwise. |
| `LuaState.State.Open` | include/selene/State.h:62-69 | Throws `0` exactly when `luaL_newstate` returns null. Otherwise the new state owns that interpreter, with a registry and a handler. |
| `LuaState.State.Owning` | include/selene/State.h:63-68 | After `luaL_newstate` succeeds, the state holds the interpreter and owns it. |
| `LuaState.State.Borrowing` | include/selene/State.h:70-73 | A state built from an existing interpreter never owns it. |
| `LuaState.State.MoveFrom` | include/selene/State.h:76-81 | Takes the interpreter, the owner flag and the registry, and nulls the source's interpreter and registry. The exception handler is not moved. |
| `LuaState.State.MoveAssign` | include/selene/State.h:82-89 | Self-move changes nothing. Otherwise it takes the interpreter, the owner flag and the registry, nulls the source's interpreter and registry, and keeps its own handler. |
| `LuaState.State.Destroy` | include/selene/State.h:90-96 | Closes the interpreter exactly when `_l` is non-null and the state owns it, so a borrowing state never closes it. Afterwards `_l` is null. |
| `LuaState.State.Load` | include/selene/State.h:102-129 | Returns true exactly when the load status and the run status are both OK, and calls the handler at most once. A syntax or file error on load is reported with the error string, or else with `file + ": syntax error"` or `file + ": file error"`. Any other load failure returns false without a report. A failed run is reported with the error string, or else `file + ": dofile failed"`. A handler is needed exactly when a report is made. The stack is restored. A failed load leaves the tables alone, and a run leaves them as the chunk left them. |
| `LuaState.State.OpenLib` | include/selene/State.h:131-134 | Runs the Lua 5.1 back-port of `luaL_requiref` with a global binding, and restores the stack. The opener is called only if the module was not cached. The resulting tables are exactly those the opener left (or the current ones with `_LOADED` in place), with the module stored under `modname` in the `_LOADED` table found or created before the call and in `_G`. |
| `LuaState.State.Run` | include/selene/State.h:149-157 | Returns true exactly when the load and the run both succeed. The handler is called only on failure, once, with the code 1 that `luaL_dostring` yields and the error value on top of the stack. The handler is needed only on a failure. The stack is restored. A failed load leaves the tables alone, and a run leaves them as the chunk left them. |
| `LuaState.MovedStateHasNoHandler` | include/selene/State.h:76-81 | A state built by the move constructor as written has no exception handler. Without reporting anything it still loads a clean file (true) and a file whose load runs out of memory (false). |
| `LuaState.State.MoveFromKeepingHandler` | include/selene/State.h:76-81 | The corrected move keeps the handler, so the new state can load and report errors. |
| `LuaState.MovedStateKeepsHandler` | include/selene/State.h:76-81 | After the corrected move, the new state keeps the handler. Loading a file with a syntax error returns false, and the error is reported exactly once with the fallback message `file + ": syntax error"`. |
| `LuaState.MoveAssignLeaks` | include/selene/State.h:82-89 | With move assignment as written, `a` owned `leaked` and took over `taken` from `b`. Once both states are destroyed (both `_l` null), `taken` is closed but `leaked` never is. |
| `LuaState.State.MoveAssignReleasing` | include/selene/State.h:82-89 | The corrected move assignment closes the interpreter it owned before it is overwritten, unless that is the interpreter being taken over. Otherwise it does what `MoveAssign` does, on both states, and a self-move changes nothing. |
| `LuaState.MoveAssignReleasingCloses` | include/selene/State.h:82-89 | With the corrected move assignment in the same scenario, both distinct interpreters are closed once both states are destroyed (both `_l` null). |

## Findings

| source | as written | input that shows it | evidently intended | confidence | as-written member | corrected member |
|---|---|---|---|---|---|---|
| include/selene/State.h:76-81 | the move constructor moves `_l`, `_l_owner` and `_registry` but not `_exception_handler` | `State b(std::move(a));` then `b.Load(f)` with a syntax error: `Handle` is called through a null handler | the handler moves with the interpreter | not executed | `LuaState.MovedStateHasNoHandler` | `LuaState.State.MoveFromKeepingHandler` |
| include/selene/State.h:82-89 | move assignment overwrites `_l` without closing an interpreter this state owns | two owning states `a`, `b`; `a = std::move(b);` then destroy both: the interpreter `a` owned is never closed | an owned interpreter is closed before it is replaced | not executed | `LuaState.MoveAssignLeaks` | `LuaState.State.MoveAssignReleasing` |

## Left out

- `luaL_checkstack`, `lua_absindex`: the model's stack is unbounded. The table index passed to `luaL_getsubtable` is modelled by the table it designates.
- Lua tables have only string keys here, and metamethods are not modelled. The shims use only string keys.
- `lua_tostring` yields a string only for string values. Number-to-string coercion is not modelled.
- Openers (`lua_CFunction`) are modelled by what they leave: given the module name and the tables they run on, the tables afterwards, the next free table identity and the returned module. `luaL_requiref`, `OpenLib` and `CacheModule` require only that the opener keeps every table identity, gives new tables fresh identities and leaves a consistent heap with a live module (`Lua.Grows`). It may write any table, as a Lua 5.1 `luaL_register` opener writes `_G[modname]` and `package.loaded[modname]`. Tables the opener drops are not modelled (tables are never collected here). Errors raised inside `lua_call` are left out.
- `LuaState.RequireF`: that `_LOADED[modname]` reads as the module afterwards, and that the registry's `_LOADED` is still that table, is promised only when the opener leaves the registry's `_LOADED` pointing at the table found or created before the call (`KeepsLoaded`). An opener may replace it, and the source then caches the module in the table it found before the call.
- `LuaState.LoadAndCache`: the same condition applies; its contract gives the exact resulting tables instead of the registry's view.
- `LuaState.State.OpenLib`: the same condition applies as for `RequireF`.
- A successful `lua_pcall` pushes no results in the model. `Load` and `operator()` restore the stack size on exit, which discards them anyway. What a chunk does to the tables is a parameter. The model only requires it to leave a consistent interpreter.
- Lua strings are byte strings that may contain a zero byte. The C-string uses (the metatable name passed to `luaL_checkudata`, and the `lua_tostring` messages that `Load` passes to the handler) stop at the first zero byte. The model keeps the whole string.
- `BaseFun.Dispatch` receives the stack as `Apply` left it and returns the new stack, instead of mutating the interpreter. Recovering the function from upvalue 1 (`lua_touserdata`) and the virtual call of `Apply` are represented by the `ApplyOutcome` parameter.
- `BaseFun.Traceback`: `Traceback` (util.h) is not part of this model. It is modelled as pushing the message followed by the call-stack text. Its real stack use is not modelled.
- `store_current_exception` (ExceptionHandler.h) is not part of this model. Its effect is represented by the message recorded in `Action.LuaError`.
- `_check_get` and the conversion rules (primitives.h) are not part of this model. They are a parameter that maps an argument type and a position to a value or a failure, and reading is assumed not to change the interpreter.
- Argument values of a native function share one type parameter. Per-position C++ types and `_indices`/`_indices_builder`/`_id` are replaced by sequence indexing.
- A re-raise callback or `luaL_checkudata` that returns instead of raising would fall through to `lua_error`. The model treats both as terminal raises.
- Status codes are a datatype. Their numeric values, which differ between Lua 5.1 and 5.2, are not modelled. The one number the handler can see is the 1 from `luaL_dostring`.
- `LuaState.State.Load` and `LuaState.State.Run` require an exception handler exactly when they make a report. For `Load` that is a syntax or file error on load, or a failed run. For `Run` it is any failure. In the source, reporting through a null handler is undefined behaviour (see Findings).
- On Lua 5.2 and later, `luaL_requiref` is the library's own function. On Lua 5.2 it calls the opener every time. Lua 5.3 and later read `package.loaded[modname]` and call the opener only when it is false or nil. The model covers the Lua 5.1 back-port.
- `luaL_openlibs` (the `should_open_libs` flag), `ForceGC`/`lua_gc`, `InteractiveDebug`, `Size`, `operator[]` (Selector), `operator<<` and `_print`: these are I/O or interpreter internals.
- `HandleExceptionsPrintingToStdOut` and `HandleExceptionsWith` are left out. What the handler does is not modelled, only its presence and the calls it receives.
- Registry.h, Selector.h and ResetStackOnScopeExit are not part of this model. Only the restored stack size is modelled.
