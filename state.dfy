/**
  The interpreter owner `sel::State` and the Lua 5.1 back-ports of the
  auxiliary functions `luaL_getsubtable` and `luaL_requiref` (section 5.1 of
  the Lua 5.2 Reference Manual), over the abstract interpreter of module Lua.
*/
module LuaState {
  import opened Lua

  /**
    `luaL_getsubtable(L, t, name)`: pushes `t[name]` if it is a table and
    returns 1; otherwise stores a fresh empty table at `t[name]`, pushes it
    and returns 0. The index argument is modelled by the table it designates.
  */
  method GetSubtable(L: Interp, t: TableId, name: string) returns (r: int)
    requires L.Valid() && t in L.tables
    modifies L
    ensures L.Valid() && t in L.tables
    ensures r == (if old(L.IsTable(L.Field(t, name))) then 1 else 0)
    ensures |L.stack| == |old(L.stack)| + 1 && L.stack[..|old(L.stack)|] == old(L.stack)
    ensures L.IsTable(Top(L.stack)) && L.Field(t, name) == Top(L.stack)
    ensures r == 1 ==> L.tables == old(L.tables) && Top(L.stack) == old(L.Field(t, name))
    ensures r == 0 ==> Top(L.stack).id !in old(L.tables) && L.tables[Top(L.stack).id] == map[]
    ensures r == 0 ==> Top(L.stack).id == old(L.nextTable) && L.nextTable == old(L.nextTable) + 1
    ensures r == 1 ==> L.nextTable == old(L.nextTable)
    ensures r == 0 ==> L.tables == old(L.tables)[Top(L.stack).id := map[]][t := Put(old(L.tables)[t], name, Top(L.stack))]
    ensures L.closed == old(L.closed) && L.openerCalls == old(L.openerCalls)
  {
    L.Push(Str(name));
    L.GetTable(t);
    if L.IsTable(Top(L.stack)) {
      return 1;
    }
    var created := ReplaceWithNewTable(L, t, name);
    return 0;
  }

  /**
    The creating branch of `luaL_getsubtable`: pops the non-table found at
    `t[name]`, stores a fresh empty table there and leaves it on the stack.
  */
  method ReplaceWithNewTable(L: Interp, t: TableId, name: string) returns (created: TableId)
    requires L.Valid() && t in L.tables && |L.stack| > 0
    modifies L
    ensures L.Valid() && t in L.tables
    ensures created == old(L.nextTable) && created !in old(L.tables) && L.nextTable == old(L.nextTable) + 1
    ensures L.stack == old(L.stack)[..|old(L.stack)| - 1] + [Table(created)]
    ensures L.tables == old(L.tables)[created := map[]][t := Put(old(L.tables)[t], name, Table(created))]
    ensures L.closed == old(L.closed) && L.openerCalls == old(L.openerCalls)
  {
    L.Pop(1);
    created := L.NewTable();
    L.Push(Str(name));
    L.PushValue(-2);
    L.SetTable(t);
  }

  /**
    The middle of `luaL_requiref`, with `_LOADED` on top of the stack: if
    `_LOADED[modname]` is nil, calls the opener and caches its result there;
    leaves the module above `_LOADED`. The cache write goes to the `_LOADED`
    table on the stack as the opener left it.
  */
  method CacheModule(L: Interp, modname: string, openf: Opener)
    requires L.Valid() && |L.stack| > 0 && L.IsTable(Top(L.stack))
    requires L.Field(Top(L.stack).id, modname) == Nil ==>
               Grows(L.tables, L.nextTable, openf.run(modname, L.tables, L.nextTable))
    modifies L
    ensures L.Valid() && L.closed == old(L.closed)
    ensures var lid := Top(old(L.stack)).id;
            var prior := old(L.Field(lid, modname));
            var run := old(openf.run(modname, L.tables, L.nextTable));
            var m := if prior == Nil then run.result else prior;
            var base := if prior == Nil then run.heap else old(L.tables);
            && lid in base
            && L.stack == old(L.stack) + [m]
            && L.tables == base[lid := Put(base[lid], modname, m)]
            && L.nextTable == (if prior == Nil then run.next else old(L.nextTable))
            && L.openerCalls == old(L.openerCalls) + (if prior == Nil then [modname] else [])
  {
    ghost var lid := Top(L.stack).id;
    ghost var prior := L.Field(lid, modname);
    PutGet(L.tables[lid], modname);
    var tag := L.GetField(-1, modname);
    if tag == TNil {
      CallAndCache(L, modname, openf);
    }
  }

  /**
    The opening branch of `luaL_requiref`, with `_LOADED` and the nil found
    at `_LOADED[modname]` on top of the stack: pops the nil, calls the opener
    and stores its result in `_LOADED`, leaving the module above `_LOADED`.
  */
  method CallAndCache(L: Interp, modname: string, openf: Opener)
    requires L.Valid() && |L.stack| > 1 && L.IsTable(L.stack[|L.stack| - 2])
    requires Grows(L.tables, L.nextTable, openf.run(modname, L.tables, L.nextTable))
    modifies L
    ensures L.Valid() && L.closed == old(L.closed)
    ensures var lid := old(L.stack)[|old(L.stack)| - 2].id;
            var run := old(openf.run(modname, L.tables, L.nextTable));
            && lid in run.heap
            && L.stack == old(L.stack)[..|old(L.stack)| - 1] + [run.result]
            && L.tables == run.heap[lid := Put(run.heap[lid], modname, run.result)]
            && L.nextTable == run.next
            && L.openerCalls == old(L.openerCalls) + [modname]
  {
    L.Pop(1);
    L.Push(CFunction(openf.fid));
    L.Push(Str(modname));
    L.CallOpener(openf);
    ghost var S, H := L.stack, L.tables;
    L.PushValue(-1);
    L.SetField(-3, modname);
    StoreKeepsConsistent(S, H, L.nextTable, L.registry, L.globals, S[|S| - 2].id, modname, Top(S));
  }

  /** Storing a live value in a live table keeps the interpreter invariant. */
  lemma StoreKeepsConsistent(stack: seq<Value>, heap: Heap, next: TableId, registry: TableId, globals: TableId,
                             t: TableId, k: string, v: Value)
    requires Consistent(stack, heap, next, registry, globals) && t in heap && LiveIn(v, heap)
    ensures Consistent(stack, heap[t := Put(heap[t], k, v)], next, registry, globals)
  {
  }

  /** Storing back the value a key already reads as leaves a table unchanged. */
  lemma PutGet(t: map<string, Value>, k: string)
    requires NoNil(t)
    ensures Put(t, k, Get(t, k)) == t
  {
    if k !in t {
      assert t - {k} == t;
    } else {
      assert t[k := t[k]] == t;
    }
  }

  /**
    `luaL_requiref(L, modname, openf, glb)` as back-ported for Lua 5.1:
    calls `openf(modname)` only when `_LOADED[modname]` is nil and caches its
    result in the `_LOADED` table found or created before the call; with
    `glb` also binds the global `modname`; leaves exactly the module on the
    stack. Against the tables `Opened` describes (those the opener left, or
    the current ones with `_LOADED` in place), only `_LOADED[modname]` and,
    with `glb`, `_G[modname]` change.
  */
  method RequireF(L: Interp, modname: string, openf: Opener, glb: bool)
    requires L.Valid()
    requires L.LoadedEntry(modname) == Nil ==> OpenerGrows(L, modname, openf)
    modifies L
    ensures L.Valid() && L.closed == old(L.closed)
    ensures old(LoadedId(L)) in old(Opened(L, modname, openf)).heap
    ensures var lid := old(LoadedId(L));
            var o := old(Opened(L, modname, openf));
            var cached := o.heap[lid := Put(o.heap[lid], modname, o.result)];
            && L.stack == old(L.stack) + [o.result]
            && L.tables == (if glb then cached[L.globals := Put(cached[L.globals], modname, o.result)] else cached)
            && L.nextTable == o.next
            && L.openerCalls == old(L.openerCalls) + (if old(L.LoadedEntry(modname)) == Nil then [modname] else [])
    ensures var m := old(Opened(L, modname, openf)).result;
            && old(LoadedId(L)) in L.tables && L.Field(old(LoadedId(L)), modname) == m
            && (glb ==> L.Field(L.globals, modname) == m)
            && (old(KeepsLoaded(L, modname, openf)) ==> L.LoadedEntry(modname) == m)
  {
    ghost var lid := LoadedId(L);
    ghost var o := Opened(L, modname, openf);
    ghost var keeps := KeepsLoaded(L, modname, openf);
    LoadAndCache(L, modname, openf);
    BindAndReplace(L, modname, glb);
    if keeps {
      LoadedStays(L.tables, o, lid, modname, glb, L.registry, L.globals);
    }
  }

  /**
    The first part of `luaL_requiref`: finds or creates `_LOADED`, then
    caches the module there, calling the opener only when
    `_LOADED[modname]` is nil. Leaves `_LOADED` and the module on the stack.
  */
  method LoadAndCache(L: Interp, modname: string, openf: Opener)
    requires L.Valid()
    requires L.LoadedEntry(modname) == Nil ==> OpenerGrows(L, modname, openf)
    modifies L
    ensures L.Valid() && L.closed == old(L.closed)
    ensures old(LoadedId(L)) in old(Opened(L, modname, openf)).heap
    ensures var lid := old(LoadedId(L));
            var o := old(Opened(L, modname, openf));
            && L.stack == old(L.stack) + [Table(lid), o.result]
            && L.tables == o.heap[lid := Put(o.heap[lid], modname, o.result)]
            && L.nextTable == o.next
            && L.openerCalls == old(L.openerCalls) + (if old(L.LoadedEntry(modname)) == Nil then [modname] else [])
  {
    ghost var W := WithLoaded(L);
    ghost var lid := LoadedId(L);
    ghost var prior := L.LoadedEntry(modname);
    var _ := GetSubtable(L, L.registry, "_LOADED");
    assert (L.tables, L.nextTable) == W;
    assert Top(L.stack) == Table(lid);
    assert L.Field(lid, modname) == prior;
    CacheModule(L, modname, openf);
  }

  /**
    The tables and the next free table identity once `luaL_getsubtable(L,
    LUA_REGISTRYINDEX, "_LOADED")` has run: unchanged when `_LOADED` is a
    table, and otherwise with a fresh empty table stored there.
  */
  ghost function WithLoaded(L: Interp): (Heap, TableId)
    reads L
    requires L.Valid()
  {
    if L.IsTable(L.Field(L.registry, "_LOADED")) then (L.tables, L.nextTable)
    else (L.tables[L.nextTable := map[]][L.registry := Put(L.tables[L.registry], "_LOADED", Table(L.nextTable))],
          L.nextTable + 1)
  }

  /** The identity of the `_LOADED` table `luaL_getsubtable` finds or creates. */
  ghost function LoadedId(L: Interp): TableId
    reads L
    requires L.Valid()
  {
    var loaded := L.Field(L.registry, "_LOADED");
    if L.IsTable(loaded) then loaded.id else L.nextTable
  }

  /** What the opener does when `luaL_requiref` calls it: it runs on the tables `WithLoaded` gives. */
  ghost function OpenerRunAt(L: Interp, modname: string, openf: Opener): OpenerRun
    reads L
    requires L.Valid()
  {
    openf.run(modname, WithLoaded(L).0, WithLoaded(L).1)
  }

  /**
    What `luaL_requiref` holds just before it caches the module: the
    opener's run when `_LOADED[modname]` is nil, and otherwise the tables
    `WithLoaded` gives with the module already cached.
  */
  ghost function Opened(L: Interp, modname: string, openf: Opener): OpenerRun
    reads L
    requires L.Valid()
  {
    if L.LoadedEntry(modname) == Nil then OpenerRunAt(L, modname, openf)
    else OpenerRun(WithLoaded(L).0, WithLoaded(L).1, L.LoadedEntry(modname))
  }

  /**
    The opener, called by `luaL_requiref`, keeps every table, allocates
    fresh ones and leaves a consistent heap with a live module.
  */
  ghost predicate OpenerGrows(L: Interp, modname: string, openf: Opener)
    reads L
    requires L.Valid()
  {
    Grows(WithLoaded(L).0, WithLoaded(L).1, OpenerRunAt(L, modname, openf))
  }

  /** The registry's `_LOADED` still designates the `_LOADED` table when the module is cached. */
  ghost predicate KeepsLoaded(L: Interp, modname: string, openf: Opener)
    reads L
    requires L.Valid()
  {
    var o := Opened(L, modname, openf);
    L.registry in o.heap && Get(o.heap[L.registry], "_LOADED") == Table(LoadedId(L))
  }

  /**
    Caching the module in `_LOADED` and binding `_G[modname]` leave the
    registry's `_LOADED` alone, unless the registry is `_LOADED` itself and
    the module, already cached under `"_LOADED"`, is stored back there.
  */
  lemma LoadedStays(T: Heap, o: OpenerRun, lid: TableId, modname: string, glb: bool, registry: TableId, globals: TableId)
    requires registry != globals && registry in o.heap && globals in o.heap && lid in o.heap
    requires Get(o.heap[registry], "_LOADED") == Table(lid)
    requires lid == registry && modname == "_LOADED" ==> o.result == Table(lid)
    requires var cached := o.heap[lid := Put(o.heap[lid], modname, o.result)];
             T == if glb then cached[globals := Put(cached[globals], modname, o.result)] else cached
    ensures registry in T && Get(T[registry], "_LOADED") == Table(lid)
    ensures lid in T && Get(T[lid], modname) == o.result
  {
  }

  /**
    The end of `luaL_requiref`, with `_LOADED` and the module on top of the
    stack: with `glb` binds the global `modname` to the module, then moves
    the module into the slot of `_LOADED`.
  */
  method BindAndReplace(L: Interp, modname: string, glb: bool)
    requires L.Valid() && |L.stack| > 1
    modifies L
    ensures L.Valid() && L.nextTable == old(L.nextTable) && L.closed == old(L.closed)
    ensures L.stack == old(L.stack)[..|old(L.stack)| - 2] + [Top(old(L.stack))]
    ensures L.tables == if glb then old(L.tables)[L.globals := Put(old(L.tables)[L.globals], modname, Top(old(L.stack)))]
                        else old(L.tables)
    ensures L.openerCalls == old(L.openerCalls)
  {
    if glb {
      L.PushValue(-1);
      L.SetGlobal(modname);
    }
    L.Replace(-2);
    assert forall i | 0 <= i < |L.stack| :: L.stack[i] in old(L.stack);
  }

  /** What a call to the exception handler was given. */
  datatype Report =
    | Handle(status: Status, msg: string)       // ExceptionHandler::Handle
    | HandleTopOfStack(code: int, top: Value)   // ExceptionHandler::Handle_top_of_stack

  /**
    What `luaL_dostring` evaluates to when either step fails: the macro is
    `luaL_loadstring(L, s) || lua_pcall(L, 0, LUA_MULTRET, 0)`, and the C++
    `||` yields `true`, which converts to the `int` 1.
  */
  const DoStringFailed: int := 1

  /** `msg ? msg : fallback`, where `msg` is `lua_tostring` of the error value. */
  function Describe(error: Value, fallback: string): (r: string)
    ensures error.Str? ==> r == error.s
    ensures !error.Str? ==> r == fallback
  {
    match ToString(error)
    case Some(msg) => msg
    case None => fallback
  }

  /** The owning constructor either yields a state or throws `0`. */
  datatype Construction = Built(state: State) | Threw(code: int)

  /**
    `sel::State`: the interpreter pointer `_l` (null as `null`), the owner
    flag, whether the registry and the exception handler are allocated, and
    the calls made to the exception handler so far.
  */
  class State {
    var l: Interp?
    var owner: bool
    var hasRegistry: bool
    var hasHandler: bool
    var reports: seq<Report>

    /** The owning constructor once `luaL_newstate` has succeeded. */
    constructor Owning(newstate: Interp)
      ensures l == newstate && owner && hasRegistry && hasHandler && reports == []
    {
      l := newstate;
      owner := true;
      hasRegistry := true;
      hasHandler := true;
      reports := [];
    }

    /**
      `State(bool should_open_libs)`: throws `0` exactly when `luaL_newstate`
      returned null; otherwise the new state owns the interpreter.
    */
    static method Open(openLibs: bool, newstate: Interp?) returns (r: Construction)
      ensures r.Threw? <==> newstate == null
      ensures r.Threw? ==> r.code == 0
      ensures r.Built? ==> fresh(r.state) && r.state.l == newstate && r.state.owner
      ensures r.Built? ==> r.state.hasRegistry && r.state.hasHandler && r.state.reports == []
    {
      if newstate == null {
        return Threw(0);
      }
      var s := new State.Owning(newstate);
      return Built(s);
    }

    /** `State(lua_State *l)`: wraps an interpreter it does not own. */
    constructor Borrowing(existing: Interp?)
      ensures l == existing && !owner && hasRegistry && hasHandler && reports == []
    {
      l := existing;
      owner := false;
      hasRegistry := true;
      hasHandler := true;
      reports := [];
    }

    /**
      `State(State &&other)`: takes the interpreter, the owner flag and the
      registry; nulls the source's interpreter. The exception handler is not
      moved: the new state has none.
    */
    constructor MoveFrom(other: State)
      modifies other
      ensures l == old(other.l) && owner == old(other.owner) && hasRegistry == old(other.hasRegistry)
      ensures !hasHandler && reports == []
      ensures other.l == null && !other.hasRegistry
      ensures other.owner == old(other.owner) && other.hasHandler == old(other.hasHandler)
      ensures other.reports == old(other.reports)
    {
      l := other.l;
      owner := other.owner;
      hasRegistry := other.hasRegistry;
      hasHandler := false;
      reports := [];
      new;
      other.hasRegistry := false;
      other.l := null;
    }

    /**
      The corrected move constructor: like `MoveFrom`, but the
      exception handler and what it has been given move too, so the new
      state can report errors whenever the source could.
    */
    constructor MoveFromKeepingHandler(other: State)
      modifies other
      ensures l == old(other.l) && owner == old(other.owner) && hasRegistry == old(other.hasRegistry)
      ensures hasHandler == old(other.hasHandler) && reports == old(other.reports)
      ensures other.l == null && !other.hasRegistry && !other.hasHandler
      ensures other.owner == old(other.owner)
    {
      l := other.l;
      owner := other.owner;
      hasRegistry := other.hasRegistry;
      hasHandler := other.hasHandler;
      reports := other.reports;
      new;
      other.hasRegistry := false;
      other.hasHandler := false;
      other.l := null;
    }

    /**
      `operator=(State &&other)`: a self-move changes nothing; otherwise takes
      the interpreter, the owner flag and the registry and nulls the source's
      interpreter. This state's own handler stays.
    */
    method MoveAssign(other: State)
      modifies this, other
      ensures other == this ==> l == old(l) && owner == old(owner) && hasRegistry == old(hasRegistry)
      ensures other == this ==> hasHandler == old(hasHandler) && reports == old(reports)
      ensures other != this ==> l == old(other.l) && owner == old(other.owner) && hasRegistry == old(other.hasRegistry)
      ensures other != this ==> hasHandler == old(hasHandler) && reports == old(reports)
      ensures other != this ==> other.l == null && !other.hasRegistry
      ensures other != this ==> other.owner == old(other.owner) && other.hasHandler == old(other.hasHandler)
      ensures other != this ==> other.reports == old(other.reports)
    {
      if other == this {
        return;
      }
      l := other.l;
      owner := other.owner;
      hasRegistry := other.hasRegistry;
      other.hasRegistry := false;
      other.l := null;
    }

    /**
      The corrected move assignment: like `MoveAssign`, but an
      interpreter this state owned (and that is not the one taken over) is
      closed before it is overwritten.
    */
    method MoveAssignReleasing(other: State)
      modifies this, other, l
      ensures other == this ==> l == old(l) && owner == old(owner) && hasRegistry == old(hasRegistry)
      ensures other == this ==> hasHandler == old(hasHandler) && reports == old(reports)
      ensures other != this ==> l == old(other.l) && owner == old(other.owner) && hasRegistry == old(other.hasRegistry)
      ensures other != this ==> hasHandler == old(hasHandler) && reports == old(reports)
      ensures other != this ==> other.l == null && !other.hasRegistry
      ensures other != this ==> other.owner == old(other.owner) && other.hasHandler == old(other.hasHandler)
      ensures other != this ==> other.reports == old(other.reports)
      ensures other != this && old(l) != null && old(owner) && old(l) != old(other.l) ==> old(l).closed
      ensures old(l) != null && (other == this || !old(owner) || old(l) == old(other.l)) ==>
                old(l).closed == old(l.closed)
      ensures old(l) != null ==> old(l).stack == old(l.stack) && old(l).tables == old(l.tables)
    {
      if other == this {
        return;
      }
      if l != null && owner && l != other.l {
        l.Close();
      }
      l := other.l;
      owner := other.owner;
      hasRegistry := other.hasRegistry;
      other.hasRegistry := false;
      other.l := null;
    }

    /** `~State()`: closes the interpreter only when there is one and this state owns it. */
    method Destroy()
      modifies this, l
      ensures l == null
      ensures old(l) != null ==> old(l).closed == (old(l.closed) || old(owner))
      ensures old(l) != null ==> old(l).stack == old(l.stack) && old(l).tables == old(l.tables)
      ensures owner == old(owner) && hasRegistry == old(hasRegistry) && hasHandler == old(hasHandler)
      ensures reports == old(reports)
    {
      if l != null && owner {
        // ForceGC() (lua_gc) has no effect this model can observe.
        l.Close();
      }
      l := null;
    }

    /**
      `Load(file)`: loads then runs a file; true exactly when both steps
      succeed. A syntax or file error on load, or a failed run, is reported to
      the handler once, with the error string or a fallback message; any other
      load failure is not reported. The stack is restored on exit. A failed
      load leaves the tables alone; a run leaves them as `heap`. The handler
      is used only when a report is made, so a state without one can still
      load a file that loads and runs cleanly, or whose load fails without a
      report.
    */
    method Load(file: string, loadStatus: Status, loadError: Value, callStatus: Status, callError: Value,
                heap: Heap, next: TableId)
      returns (ok: bool)
      requires l != null && l.Valid()
      requires hasHandler || (loadStatus !in {ErrSyntax, ErrFile} && (loadStatus == Ok ==> callStatus == Ok))
      requires loadStatus == Ok ==>
                 Consistent(l.stack + (if callStatus == Ok then [] else [callError]), heap, next, l.registry, l.globals)
      modifies this, l
      ensures l == old(l) && owner == old(owner) && hasRegistry == old(hasRegistry) && hasHandler == old(hasHandler)
      ensures l.Valid() && l.stack == old(l.stack) && l.closed == old(l.closed)
      ensures loadStatus != Ok ==> l.tables == old(l.tables)
      ensures loadStatus == Ok ==> l.tables == heap
      ensures ok <==> loadStatus == Ok && callStatus == Ok
      ensures ok ==> reports == old(reports)
      ensures loadStatus == ErrSyntax ==>
                reports == old(reports) + [Handle(ErrSyntax, Describe(loadError, file + ": syntax error"))]
      ensures loadStatus == ErrFile ==>
                reports == old(reports) + [Handle(ErrFile, Describe(loadError, file + ": file error"))]
      ensures loadStatus !in {Ok, ErrSyntax, ErrFile} ==> reports == old(reports)
      ensures loadStatus == Ok && callStatus != Ok ==>
                reports == old(reports) + [Handle(callStatus, Describe(callError, file + ": dofile failed"))]
    {
      var saved := |l.stack|;
      var status := loadStatus;
      l.LoadChunk(status, loadError);
      if status != Ok {
        if status == ErrSyntax {
          var msg := ToString(Top(l.stack));
          reports := reports + [Handle(status, if msg.Some? then msg.value else file + ": syntax error")];
        } else if status == ErrFile {
          var msg := ToString(Top(l.stack));
          reports := reports + [Handle(status, if msg.Some? then msg.value else file + ": file error")];
        }
        l.SetTop(saved);
        return false;
      }
      status := callStatus;
      assert l.stack[..|l.stack| - 1] == old(l.stack);
      l.PCall(status, callError, heap, next);
      if status == Ok {
        l.SetTop(saved);
        return true;
      }
      var msg := ToString(Top(l.stack));
      reports := reports + [Handle(status, if msg.Some? then msg.value else file + ": dofile failed")];
      l.SetTop(saved);
      return false;
    }

    /**
      `OpenLib(modname, openf)`: `luaL_requiref` with a global binding, then
      the stack is restored. This is the Lua 5.1 back-port above.
    */
    method OpenLib(modname: string, openf: Opener)
      requires l != null && l.Valid()
      requires l.LoadedEntry(modname) == Nil ==> OpenerGrows(l, modname, openf)
      modifies l
      ensures l.Valid() && l.stack == old(l.stack) && l.closed == old(l.closed)
      ensures old(LoadedId(l)) in old(Opened(l, modname, openf)).heap
      ensures var lid := old(LoadedId(l));
              var o := old(Opened(l, modname, openf));
              var cached := o.heap[lid := Put(o.heap[lid], modname, o.result)];
              && l.tables == cached[l.globals := Put(cached[l.globals], modname, o.result)]
              && l.nextTable == o.next
              && l.openerCalls == old(l.openerCalls) + (if old(l.LoadedEntry(modname)) == Nil then [modname] else [])
      ensures var m := old(Opened(l, modname, openf)).result;
              && old(LoadedId(l)) in l.tables && l.Field(old(LoadedId(l)), modname) == m
              && l.Field(l.globals, modname) == m
              && (old(KeepsLoaded(l, modname, openf)) ==> l.LoadedEntry(modname) == m)
    {
      var saved := |l.stack|;
      RequireF(l, modname, openf, true);
      l.SetTop(saved);
    }

    /**
      `operator()(code)`: runs a string through `luaL_dostring`; true exactly
      when both its steps succeed. Only a failure is reported, once, with the
      error value then on top of the stack and the code `luaL_dostring`
      yields, which is 1 whichever step failed and whatever its status. The
      stack is restored on exit; a run leaves the tables as `heap`.
    */
    method Run(code: string, loadStatus: Status, loadError: Value, callStatus: Status, callError: Value,
               heap: Heap, next: TableId)
      returns (ok: bool)
      requires l != null && l.Valid()
      requires hasHandler || (loadStatus == Ok && callStatus == Ok)
      requires loadStatus == Ok ==>
                 Consistent(l.stack + (if callStatus == Ok then [] else [callError]), heap, next, l.registry, l.globals)
      modifies this, l
      ensures l == old(l) && owner == old(owner) && hasRegistry == old(hasRegistry) && hasHandler == old(hasHandler)
      ensures l.Valid() && l.stack == old(l.stack) && l.closed == old(l.closed)
      ensures loadStatus != Ok ==> l.tables == old(l.tables)
      ensures loadStatus == Ok ==> l.tables == heap
      ensures ok <==> loadStatus == Ok && callStatus == Ok
      ensures var error := if loadStatus != Ok then loadError else callError;
              reports == old(reports) + (if ok then [] else [HandleTopOfStack(DoStringFailed, error)])
    {
      var saved := |l.stack|;
      // luaL_dostring: luaL_loadstring(L, code) || lua_pcall(L, 0, LUA_MULTRET, 0);
      // the run happens only after a successful load, and the `||` is 0 or 1.
      l.LoadChunk(loadStatus, loadError);
      var status: int := if loadStatus == Ok then 0 else 1;
      if loadStatus == Ok {
        assert l.stack[..|l.stack| - 1] == old(l.stack);
        l.PCall(callStatus, callError, heap, next);
        status := if callStatus == Ok then 0 else 1;
      }
      if status != 0 {
        reports := reports + [HandleTopOfStack(status, Top(l.stack))];
        l.SetTop(saved);
        return false;
      }
      l.SetTop(saved);
      return true;
    }
  }

  /**
    Loading the same library twice: once the first call has cached a
    non-nil module, and the opener has left the registry's `_LOADED` in
    place, the second returns that module without calling the opener again.
  */
  method RequireTwice(L: Interp, modname: string, openf: Opener)
    requires L.Valid()
    requires L.LoadedEntry(modname) == Nil ==>
               && OpenerGrows(L, modname, openf)
               && OpenerRunAt(L, modname, openf).result != Nil
               && KeepsLoaded(L, modname, openf)
    modifies L
    ensures L.Valid()
    ensures var prior := old(L.LoadedEntry(modname));
            var m := if prior == Nil then old(OpenerRunAt(L, modname, openf)).result else prior;
            && m != Nil
            && L.stack == old(L.stack) + [m, m]
            && L.openerCalls == old(L.openerCalls) + (if prior == Nil then [modname] else [])
  {
    assert KeepsLoaded(L, modname, openf);
    RequireF(L, modname, openf, false);
    RequireF(L, modname, openf, false);
  }

  /**
    With `MoveAssign` as written: `a` owns `leaked`, then takes over `taken`
    from `b` by move assignment; once both states are destroyed, `taken` is
    closed but `leaked` never is.
  */
  method MoveAssignLeaks() returns (leaked: Interp, taken: Interp, a: State, b: State)
    ensures leaked != taken
    ensures a.l == null && b.l == null && a.owner && b.owner
    ensures !leaked.closed && taken.closed
  {
    leaked := new Interp();
    taken := new Interp();
    var r1 := State.Open(false, leaked);
    var r2 := State.Open(false, taken);
    a := r1.state;
    b := r2.state;
    assert a.l == leaked && a.owner;
    a.MoveAssign(b);
    a.Destroy();
    b.Destroy();
  }

  /** With `MoveAssignReleasing` in the same scenario, both interpreters are closed once both states are destroyed. */
  method MoveAssignReleasingCloses() returns (i1: Interp, i2: Interp, a: State, b: State)
    ensures i1 != i2
    ensures a.l == null && b.l == null && a.owner && b.owner
    ensures i1.closed && i2.closed
  {
    i1 := new Interp();
    i2 := new Interp();
    var r1 := State.Open(false, i1);
    var r2 := State.Open(false, i2);
    a := r1.state;
    b := r2.state;
    a.MoveAssignReleasing(b);
    a.Destroy();
    b.Destroy();
  }

  /**
    With the move constructor as written, the new state has no exception
    handler. It still loads a file that loads and runs cleanly, and a file
    whose load fails without a report (out of memory), but it cannot meet
    the requirement of `Load` or `Run` for a failure that is reported (in
    the source, such a report dereferences a null handler).
  */
  method MovedStateHasNoHandler() returns (moved: State, ok: bool, outOfMemory: bool)
    ensures !moved.hasHandler && moved.l != null
    ensures ok && !outOfMemory && moved.reports == []
  {
    var i := new Interp();
    var r := State.Open(false, i);
    moved := new State.MoveFrom(r.state);
    ok := moved.Load("init.lua", Ok, Nil, Ok, Nil, i.tables, i.nextTable);
    outOfMemory := moved.Load("big.lua", ErrMem, Nil, Ok, Nil, i.tables, i.nextTable);
  }

  /**
    With `MoveFromKeepingHandler`, the new state still reports errors: a
    syntax error in a file whose error value is not a string is reported
    with the fallback message.
  */
  method MovedStateKeepsHandler() returns (moved: State, file: string, ok: bool)
    ensures moved.hasHandler && moved.l != null
    ensures !ok && moved.reports == [Handle(ErrSyntax, file + ": syntax error")]
  {
    var i := new Interp();
    var r := State.Open(false, i);
    moved := new State.MoveFromKeepingHandler(r.state);
    file := "init.lua";
    ok := moved.Load(file, ErrSyntax, Nil, Ok, Nil, i.tables, i.nextTable);
  }
}
