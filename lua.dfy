/**
  An abstract model of the parts of the Lua C API that the bridge relies on.

  A Lua value is a datatype; the value stack is a sequence whose last element
  is the top (stack index -1); a table is a map from string keys to values,
  and the interpreter's tables live in a heap keyed by table identity.
  Storing `Nil` under a key removes the key, as in Lua.
*/
module Lua {

  datatype Option<+T> = None | Some(value: T)

  /** Identity of a table in the interpreter's heap of tables. */
  type TableId = nat

  datatype Value =
    | Nil
    | Boolean(b: bool)
    | Number(n: int)
    | Str(s: string)
    | Table(id: TableId)
    | LuaFunction(fid: nat)
    | CFunction(fid: nat)
    | Userdata(uid: nat)

  /** The interpreter's tables, by identity. */
  type Heap = map<TableId, map<string, Value>>

  /**
    What running a library opener leaves: the tables afterwards, the next
    free table identity, and the module it returns.
  */
  datatype OpenerRun = OpenerRun(heap: Heap, next: TableId, result: Value)

  /**
    A C function used as a library opener (`lua_CFunction`): its identity, and
    what it does when called with a module name on the given tables with the
    given next free table identity.
  */
  datatype Opener = Opener(fid: nat, run: (string, Heap, TableId) -> OpenerRun)

  /** The type tags of `lua_type`. */
  datatype Type = TNil | TBoolean | TNumber | TString | TTable | TFunction | TUserdata

  function TypeOf(v: Value): (t: Type)
    ensures t == TNil <==> v == Nil
    ensures t == TTable <==> v.Table?
  {
    match v
    case Nil => TNil
    case Boolean(_) => TBoolean
    case Number(_) => TNumber
    case Str(_) => TString
    case Table(_) => TTable
    case LuaFunction(_) => TFunction
    case CFunction(_) => TFunction
    case Userdata(_) => TUserdata
  }

  /** Status codes returned by `luaL_loadfile`, `lua_pcall` and `luaL_dostring`. */
  datatype Status = Ok | Yield | ErrRun | ErrSyntax | ErrMem | ErrGcmm | ErrErr | ErrFile

  /**
    `lua_tostring`: a string yields itself; any other value yields NULL
    (number-to-string coercion is not part of this model).
  */
  function ToString(v: Value): (r: Option<string>)
    ensures r.Some? <==> v.Str?
    ensures v.Str? ==> r.value == v.s
  {
    if v.Str? then Some(v.s) else None
  }

  /** `lua_pushlstring(L, src, len)`: pushes the first `len` characters of `src`. */
  function PushLString(stack: seq<Value>, src: string, len: nat): (r: seq<Value>)
    requires len <= |src|
    ensures |r| == |stack| + 1 && r[..|stack|] == stack
    ensures r[|stack|].Str? && |r[|stack|].s| == len
    ensures forall j :: 0 <= j < len ==> r[|stack|].s[j] == src[j]
  {
    stack + [Str(src[..len])]
  }

  /** The value at the top of a non-empty stack (index -1). */
  function Top(stack: seq<Value>): Value
    requires |stack| > 0
  {
    stack[|stack| - 1]
  }

  /** Reads key `k` of table `t`; an absent key reads as `Nil`. */
  function Get(t: map<string, Value>, k: string): Value
  {
    if k in t then t[k] else Nil
  }

  /** A table holds no `Nil` values: a key is present exactly when it reads as non-nil. */
  predicate NoNil(t: map<string, Value>)
  {
    forall k | k in t :: t[k] != Nil
  }

  /** A value refers to no table outside `heap` (Lua has no dangling references). */
  predicate LiveIn(v: Value, heap: Heap)
  {
    v.Table? ==> v.id in heap
  }

  /**
    The interpreter invariant over a stack, a heap of tables and the next
    free table identity: the registry and the globals table exist and are
    distinct, every table identity is below `next`, no table stores `Nil`,
    and every table reachable from the stack or from a table is live.
  */
  predicate Consistent(stack: seq<Value>, heap: Heap, next: TableId, registry: TableId, globals: TableId)
  {
    && registry in heap
    && globals in heap
    && registry != globals
    && (forall t | t in heap :: t < next && NoNil(heap[t]))
    && (forall t, k | t in heap && k in heap[t] :: LiveIn(heap[t][k], heap))
    && (forall i | 0 <= i < |stack| :: LiveIn(stack[i], heap))
  }

  /**
    An opener run on `heap` (next free identity `next`) keeps every table
    identity, gives the tables it creates fresh identities, and leaves a
    consistent heap: no table stores `Nil`, every table refers only to live
    tables, and the module returned is live. It may write any table, as
    `luaL_register` writes `_G[name]` and `_LOADED[name]`.
  */
  predicate Grows(heap: Heap, next: TableId, r: OpenerRun)
  {
    && next <= r.next
    && (forall t | t in heap :: t in r.heap)
    && (forall t | t in r.heap && t !in heap :: next <= t)
    && (forall t | t in r.heap :: t < r.next && NoNil(r.heap[t]))
    && (forall t, k | t in r.heap && k in r.heap[t] :: LiveIn(r.heap[t][k], r.heap))
    && LiveIn(r.result, r.heap)
  }

  /** Stores `v` under `k`; storing `Nil` removes the key. */
  function Put(t: map<string, Value>, k: string, v: Value): (r: map<string, Value>)
    ensures Get(r, k) == v
    ensures forall k' :: k' != k ==> Get(r, k') == Get(t, k')
    ensures NoNil(t) ==> NoNil(r)
  {
    if v == Nil then t - {k} else t[k := v]
  }

  /**
    An interpreter (`lua_State`): its value stack, its tables, the registry
    and the globals table, and whether `lua_close` has been called on it.
  */
  class Interp {
    var stack: seq<Value>
    var tables: Heap
    var nextTable: TableId
    const registry: TableId
    const globals: TableId
    var closed: bool
    /** The module names an opener has been called with, in order. */
    ghost var openerCalls: seq<string>

    ghost predicate Valid()
      reads this
    {
      Consistent(stack, tables, nextTable, registry, globals)
    }

    /** `luaL_newstate`: an empty stack, an empty registry and an empty globals table. */
    constructor ()
      ensures Valid()
      ensures stack == [] && !closed && openerCalls == []
      ensures tables == map[registry := map[], globals := map[]]
    {
      stack := [];
      registry := 0;
      globals := 1;
      tables := map[0 := map[], 1 := map[]];
      nextTable := 2;
      closed := false;
      openerCalls := [];
    }

    /** Whether `v` is a live table (`lua_istable`). */
    function IsTable(v: Value): bool
      reads this
    {
      v.Table? && v.id in tables
    }

    /** Whether `v` refers to no table outside this interpreter's tables. */
    predicate Live(v: Value)
      reads this
    {
      LiveIn(v, tables)
    }

    /** The raw value of key `k` in table `t`. */
    function Field(t: TableId, k: string): Value
      reads this
      requires t in tables
    {
      Get(tables[t], k)
    }

    /** `_LOADED[name]`, where `_LOADED` is the registry's `"_LOADED"` entry, or `Nil` when that is not a table. */
    function LoadedEntry(name: string): Value
      reads this
      requires Valid()
    {
      var loaded := Field(registry, "_LOADED");
      if IsTable(loaded) then Field(loaded.id, name) else Nil
    }

    /** Whether `idx` is a valid negative (top-relative) stack index. */
    predicate Relative(idx: int)
      reads this
    {
      -|stack| <= idx <= -1
    }

    /** The value at a top-relative index. */
    function At(idx: int): Value
      reads this
      requires Relative(idx)
    {
      stack[|stack| + idx]
    }

    /** `lua_pushvalue(L, v)` for a value the caller already holds. */
    method Push(v: Value)
      modifies this
      ensures stack == old(stack) + [v]
      ensures tables == old(tables) && nextTable == old(nextTable)
      ensures closed == old(closed) && openerCalls == old(openerCalls)
    {
      stack := stack + [v];
    }

    /** `lua_pop(L, n)`. */
    method Pop(n: nat)
      requires n <= |stack|
      modifies this
      ensures stack == old(stack)[..|old(stack)| - n]
      ensures tables == old(tables) && nextTable == old(nextTable)
      ensures closed == old(closed) && openerCalls == old(openerCalls)
    {
      stack := stack[..|stack| - n];
    }

    /** `lua_pushvalue(L, idx)`: pushes a copy of the value at `idx`. */
    method PushValue(idx: int)
      requires Relative(idx)
      modifies this
      ensures stack == old(stack) + [old(At(idx))]
      ensures tables == old(tables) && nextTable == old(nextTable)
      ensures closed == old(closed) && openerCalls == old(openerCalls)
    {
      stack := stack + [stack[|stack| + idx]];
    }

    /** `lua_replace(L, idx)`: moves the top value into `idx` and pops it. */
    method Replace(idx: int)
      requires Relative(idx) && idx < -1
      modifies this
      ensures |stack| == |old(stack)| - 1
      ensures stack == old(stack)[|old(stack)| + idx := Top(old(stack))][..|old(stack)| - 1]
      ensures tables == old(tables) && nextTable == old(nextTable)
      ensures closed == old(closed) && openerCalls == old(openerCalls)
    {
      stack := stack[|stack| + idx := Top(stack)][..|stack| - 1];
    }

    /** `lua_newtable(L)`: pushes a fresh, empty table. */
    method NewTable() returns (t: TableId)
      requires Valid()
      modifies this
      ensures Valid()
      ensures t == old(nextTable) && t !in old(tables)
      ensures stack == old(stack) + [Table(t)]
      ensures tables == old(tables)[t := map[]]
      ensures nextTable == old(nextTable) + 1
      ensures closed == old(closed) && openerCalls == old(openerCalls)
    {
      t := nextTable;
      tables := tables[t := map[]];
      nextTable := nextTable + 1;
      stack := stack + [Table(t)];
    }

    /** `lua_gettable(L, t)` with a string key on top: replaces the key with `t[key]`. */
    method GetTable(t: TableId)
      requires t in tables && |stack| > 0 && Top(stack).Str?
      modifies this
      ensures stack == old(stack)[..|old(stack)| - 1] + [old(Field(t, Top(stack).s))]
      ensures tables == old(tables) && nextTable == old(nextTable)
      ensures closed == old(closed) && openerCalls == old(openerCalls)
    {
      stack := stack[..|stack| - 1] + [Get(tables[t], Top(stack).s)];
    }

    /** `lua_settable(L, t)` with a string key below the value: `t[key] = value`, popping both. */
    method SetTable(t: TableId)
      requires t in tables && |stack| > 1 && stack[|stack| - 2].Str?
      modifies this
      ensures stack == old(stack)[..|old(stack)| - 2]
      ensures tables == old(tables)[t := Put(old(tables)[t], old(stack)[|old(stack)| - 2].s, Top(old(stack)))]
      ensures nextTable == old(nextTable)
      ensures closed == old(closed) && openerCalls == old(openerCalls)
    {
      tables := tables[t := Put(tables[t], stack[|stack| - 2].s, Top(stack))];
      stack := stack[..|stack| - 2];
    }

    /** `lua_getfield(L, idx, k)` as the 5.1 shim has it: pushes `t[k]` and returns its type tag. */
    method GetField(idx: int, k: string) returns (tag: Type)
      requires Relative(idx) && IsTable(At(idx))
      modifies this
      ensures stack == old(stack) + [old(Field(At(idx).id, k))]
      ensures tag == TypeOf(Top(stack))
      ensures tables == old(tables) && nextTable == old(nextTable)
      ensures closed == old(closed) && openerCalls == old(openerCalls)
    {
      var v := Get(tables[stack[|stack| + idx].id], k);
      stack := stack + [v];
      tag := TypeOf(v);
    }

    /** `lua_setfield(L, idx, k)`: `t[k] = top`, popping the top. */
    method SetField(idx: int, k: string)
      requires Relative(idx) && IsTable(At(idx))
      modifies this
      ensures stack == old(stack)[..|old(stack)| - 1]
      ensures tables == old(tables)[old(At(idx)).id := Put(old(tables)[old(At(idx)).id], k, Top(old(stack)))]
      ensures nextTable == old(nextTable)
      ensures closed == old(closed) && openerCalls == old(openerCalls)
    {
      var t := stack[|stack| + idx].id;
      tables := tables[t := Put(tables[t], k, Top(stack))];
      stack := stack[..|stack| - 1];
    }

    /** `lua_setglobal(L, k)`: `_G[k] = top`, popping the top. */
    method SetGlobal(k: string)
      requires Valid() && |stack| > 0
      modifies this
      ensures Valid()
      ensures stack == old(stack)[..|old(stack)| - 1]
      ensures tables == old(tables)[globals := Put(old(tables)[globals], k, Top(old(stack)))]
      ensures nextTable == old(nextTable)
      ensures closed == old(closed) && openerCalls == old(openerCalls)
    {
      tables := tables[globals := Put(tables[globals], k, Top(stack))];
      stack := stack[..|stack| - 1];
    }

    /**
      `lua_call(L, 1, 1)` on an opener and its module-name argument: pops both,
      runs the opener, which may create tables (its module, typically) and
      write existing ones, and pushes its single result.
    */
    method CallOpener(openf: Opener)
      requires Valid()
      requires |stack| > 1 && stack[|stack| - 2] == CFunction(openf.fid) && Top(stack).Str?
      requires Grows(tables, nextTable, openf.run(Top(stack).s, tables, nextTable))
      modifies this
      ensures Valid()
      ensures var run := old(openf.run(Top(stack).s, tables, nextTable));
              && stack == old(stack)[..|old(stack)| - 2] + [run.result]
              && tables == run.heap && nextTable == run.next
      ensures openerCalls == old(openerCalls) + [Top(old(stack)).s]
      ensures closed == old(closed)
    {
      var name := Top(stack).s;
      var run := openf.run(name, tables, nextTable);
      openerCalls := openerCalls + [name];
      stack := stack[..|stack| - 2] + [run.result];
      tables := run.heap;
      nextTable := run.next;
    }

    /**
      `luaL_loadfile` and `luaL_loadstring`: on success push the compiled chunk, otherwise the
      error value; reading and compiling the source is outside the model, so the outcome is
      given by `status` and `error`.
    */
    method LoadChunk(status: Status, error: Value)
      modifies this
      ensures stack == old(stack) + [if status == Ok then LuaFunction(0) else error]
      ensures tables == old(tables) && nextTable == old(nextTable)
      ensures closed == old(closed) && openerCalls == old(openerCalls)
    {
      stack := stack + [if status == Ok then LuaFunction(0) else error];
    }

    /**
      `lua_pcall(L, 0, LUA_MULTRET, 0)` on the chunk at the top: pops it and,
      on failure, pushes the error value (the results of a successful run are
      not modelled). Running the chunk may read and write any table, create
      tables and drop unreachable ones; what it leaves is given by `heap` and
      `next`, and all the model knows of it is that the interpreter invariant
      holds afterwards.
    */
    method PCall(status: Status, error: Value, heap: Heap, next: TableId)
      requires |stack| > 0
      requires Consistent(stack[..|stack| - 1] + (if status == Ok then [] else [error]), heap, next, registry, globals)
      modifies this
      ensures Valid()
      ensures stack == old(stack)[..|old(stack)| - 1] + (if status == Ok then [] else [error])
      ensures tables == heap && nextTable == next
      ensures closed == old(closed) && openerCalls == old(openerCalls)
    {
      stack := stack[..|stack| - 1] + (if status == Ok then [] else [error]);
      tables := heap;
      nextTable := next;
    }

    /** `lua_settop(L, n)` lowering the top, as a saved stack size is restored. */
    method SetTop(n: nat)
      requires n <= |stack|
      modifies this
      ensures stack == old(stack)[..n]
      ensures tables == old(tables) && nextTable == old(nextTable)
      ensures closed == old(closed) && openerCalls == old(openerCalls)
    {
      stack := stack[..n];
    }

    /** `lua_close(L)`. */
    method Close()
      modifies this
      ensures closed
      ensures stack == old(stack) && tables == old(tables) && nextTable == old(nextTable)
      ensures openerCalls == old(openerCalls)
    {
      closed := true;
    }
  }
}
