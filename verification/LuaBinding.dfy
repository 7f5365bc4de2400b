/** The binding as the C code runs it: a Lua state and a upb heap that each
    entry point changes step by step, in the order of the C statements. Every
    entry point is proved to be the operation of LuaSteps. */
module LuaBinding {
  import opened Common
  import opened LuaState
  import opened LuaSteps
  import opened LuaMemory
  import opened LuaRuns
  import opened LuaTypes

  class Binding {
    const schema: Schema
    var lua: map<LId, LuaObj>
    var next: LId
    var cache: map<Ptr, LId>
    var upb: map<Ptr, Upb>
    var group: map<LId, LId>
    var roots: set<LId>
    var frees: map<int, int>
    var pending: Option<(LId, LId)>

    function Abs(): State
      reads this
    {
      State(lua, next, cache, upb, group, roots, frees, pending)
    }

    constructor (sc: Schema)
      ensures Abs() == INITIAL && schema == sc && Reachable(schema, Abs())
    {
      schema := sc;
      lua, next, cache, upb := map[], 0, map[], map[];
      group, roots, frees, pending := map[], {}, map[], None;
      new;
      StartReachable(sc);
    }

    // ----- The Lua API and upb, as far as the binding uses them -----

    /** lupb_newuserdata: a userdata with empty slots on top of the stack. */
    method NewUserdata(body: Body) returns (id: LId)
      modifies this`lua, this`next, this`roots
      ensures id == old(next) && next == id + 1
      ensures lua == old(lua)[id := LuaObj(body, map[])] && roots == old(roots) + {id}
    {
      id := next;
      next := next + 1;
      lua := lua[id := LuaObj(body, map[])];
      roots := roots + {id};
    }

    /** lua_setiuservalue. */
    method SetUservalue(w: LId, i: int, v: LId)
      requires w in lua
      modifies this`lua
      ensures lua == old(lua)[w := old(lua)[w].(uv := old(lua)[w].uv[i := v])]
    {
      lua := lua[w := lua[w].(uv := lua[w].uv[i := v])];
    }

    /** lupb_cacheset. */
    method CacheSet(p: Ptr, w: LId)
      modifies this`cache
      ensures cache == old(cache)[p := w]
    {
      cache := cache[p := w];
    }

    /** lupb_Arena_pushnew; the caller moves the arena to a slot at once. */
    method ArenaPushNew() returns (a: LId)
      modifies this`lua, this`next, this`group
      ensures a == old(next) && next == a + 1
      ensures lua == old(lua)[a := LuaObj(ArenaB, map[])] && group == old(group)[a := a]
    {
      a := next;
      next := next + 1;
      lua := lua[a := LuaObj(ArenaB, map[])];
      group := group[a := a];
    }

    /** lupb_Arena_Fuseobjs. */
    method FuseObjs(to: LId, from: LId)
      modifies this`group
      ensures Abs() == Fuse(old(Abs()), Arena(old(Abs()), to), Arena(old(Abs()), from))
    {
      var a, b := Group(Abs(), Arena(Abs(), to)), Group(Abs(), Arena(Abs(), from));
      group := map x | x in group :: if group[x] == b then a else group[x];
    }

    // ----- Creation -----

    /** The common end of the three constructors: arena, object, cache entry. */
    method Adopt(w: LId, p: Ptr, ty: UType)
      requires w in lua && w < next && next !in lua
      modifies this
      ensures lua == old(lua)[old(next) := LuaObj(ArenaB, map[])]
                     [w := old(lua)[w].(uv := old(lua)[w].uv[ARENA_INDEX := old(next)])]
      ensures next == old(next) + 1 && group == old(group)[old(next) := old(next)]
      ensures upb == old(upb)[p := Upb(old(next), ty, 0, map[])] && cache == old(cache)[p := w]
      ensures roots == old(roots) && frees == old(frees) && pending == old(pending)
    {
      var a := ArenaPushNew();
      SetUservalue(w, ARENA_INDEX, a);
      upb := upb[p := Upb(a, ty, 0, map[])];
      CacheSet(p, w);
    }

    /** lupb_msg_pushnew. */
    method MsgPushNew(d: LId, p: Ptr) returns (w: LId)
      requires DefAt(Abs(), d) && next !in lua && next + 1 !in lua
      modifies this
      ensures Done(Abs(), Some(w)) == NewMessage(old(Abs()), d, p)
    {
      ghost var before := lua;
      var def := lua[d].body.def;
      w := NewUserdata(MsgB(p));
      var a := ArenaPushNew();
      SetUservalue(w, ARENA_INDEX, a);
      SetUservalue(w, MSGDEF_INDEX, d);
      assert lua[w].uv == map[MSGDEF_INDEX := d][ARENA_INDEX := a];
      assert lua == before[a := LuaObj(ArenaB, map[])][w := LuaObj(MsgB(p), map[MSGDEF_INDEX := d][ARENA_INDEX := a])];
      upb := upb[p := Upb(a, TMsg(def), 0, map[])];
      CacheSet(p, w);
    }

    /** lupb_Array_New without an initial table. */
    method ArrayNew(t: TypeArg, p: Ptr) returns (w: LId)
      requires (t.ByDef? ==> DefAt(Abs(), t.d)) && next !in lua && next + 1 !in lua
      modifies this
      ensures Done(Abs(), Some(w)) == NewArray(old(Abs()), t, p)
    {
      ghost var s := Abs();
      var ty;
      match t {
        case ByNumber(ct) =>
          w := NewUserdata(ArrB(p, ct));
          ty := TArr(ct, None);
        case ByDef(d) =>
          w := NewUserdata(ArrB(p, CMessage));
          SetUservalue(w, MSGDEF_INDEX, d);
          ty := TArr(CMessage, Some(DefOf(Abs(), d)));
      }
      Adopt(w, p, ty);
      assert lua == NewArray(s, t, p).s.lua;
    }

    /** lupb_Map_New: the definition is put in slot 1 and then replaced. */
    method MapNew(kct: CType, t: TypeArg, p: Ptr) returns (w: LId)
      requires (t.ByDef? ==> DefAt(Abs(), t.d)) && next !in lua && next + 1 !in lua
      modifies this
      ensures Done(Abs(), Some(w)) == NewMap(old(Abs()), kct, t, p)
    {
      ghost var s := Abs();
      var ct;
      match t {
        case ByNumber(c) =>
          ct := c;
          w := NewUserdata(MapB(p, kct, ct));
        case ByDef(d) =>
          ct := CMessage;
          w := NewUserdata(MapB(p, kct, ct));
          SetUservalue(w, MAP_MSGDEF_INDEX, d);
      }
      Adopt(w, p, TMap(kct, ct, None));
      assert lua == NewMap(s, kct, t, p).s.lua;
    }

    // ----- Definitions -----

    /** lupb_DefPool_New: the pool object is put in its own cache. */
    method DefPoolNew(q: int) returns (id: LId)
      requires next !in lua
      modifies this
      ensures Done(Abs(), Some(id)) == NewPool(old(Abs()), q)
    {
      ghost var s := Abs();
      id := NewUserdata(PoolB(q, map[]));
      frees := frees[q := 0];
      lua := lua[id := lua[id].(body := PoolB(q, map[KPool(q) := id]))];
      assert lua == NewPool(s, q).s.lua;
    }

    /** lupb_DefPool_pushwrapper. */
    method DefPoolPushWrapper(pool: LId, key: DefKey) returns (id: LId)
      requires PoolAt(Abs(), pool) && next !in lua
      modifies this`lua, this`next
      ensures (Abs(), id) == PushWrapper(old(Abs()), pool, key)
    {
      var defs := lua[pool].body.defs;
      if key in defs {
        id := defs[key];
        return;
      }
      id := next;
      next := next + 1;
      lua := lua[id := LuaObj(match key case KDef(d) => DefB(d) case KPool(q) => PoolB(q, map[]), map[])];
      SetUservalue(id, SYMTAB_INDEX, pool);
      lua := lua[pool := lua[pool].(body := lua[pool].body.(defs := defs[key := id]))];
      assert lua == PushWrapper(old(Abs()), pool, key).0.lua;
    }

    // ----- Writes -----

    /** lupb_tomsgval: raises, or yields the pointer to store if there is one. */
    method ToValue(ct: CType, w: LId, arg: Arg, p: Ptr) returns (ok: bool, q: Option<Ptr>)
      requires WrapperAt(Abs(), w)
      modifies this`upb
      ensures ToMsgVal(old(Abs()), ct, w, arg, p) == if ok then Some((Abs(), q)) else None
      ensures !ok ==> upb == old(upb)
    {
      ok, q := false, None;
      if ct.CMessage? {
        if arg.Obj? && MsgAt(Abs(), arg.id) {
          ok := Slot(Abs(), w, MSGDEF_INDEX) == Slot(Abs(), arg.id, MSGDEF_INDEX);
          if ok { q := Some(lua[arg.id].body.ptr); }
        }
      } else if IsText(ct) {
        if arg.Text? {
          upb := upb[p := Upb(Arena(Abs(), w), TStr, 0, map[])];
          ok, q := true, Some(p);
        }
      } else {
        ok := arg.Plain?;
      }
    }

    /** lupb_Array_Newindex: check, write, and only then fuse. */
    method ArrayNewindex(w: LId, n: int, arg: Arg, p: Ptr) returns (ok: bool)
      requires WrapperAt(Abs(), w) && lua[w].body.ArrB? && pending.None?
      modifies this
      ensures var r := ArrWrite(old(Abs()), w, n, arg, p);
        ok == r.Done? && Abs() == if r.s.pending.Some? then FinishWrite(r.s) else r.s
    {
      var arr, ct := lua[w].body.ptr, lua[w].body.ct;
      var size := At(Abs(), arr).len;
      if !(1 <= n <= size + 1) { return false; }
      var q;
      ok, q := ToValue(ct, w, arg, p);
      if !ok { return; }
      var o := At(Abs(), arr);
      var edges := if q.Some? then o.edges[I(n - 1) := q.value] else o.edges;
      upb := upb[arr := o.(edges := edges, len := if n - 1 == o.len then o.len + 1 else o.len)];
      if ct.CMessage? {
        pending := Some((w, arg.id));
        FuseObjs(w, arg.id);
        pending := None;
      }
    }

    /** lupb_Map_Newindex. */
    method MapNewindex(w: LId, key: Option<string>, arg: Arg, p: Ptr) returns (ok: bool)
      requires WrapperAt(Abs(), w) && lua[w].body.MapB? && pending.None?
      modifies this
      ensures var r := MapWrite(old(Abs()), w, key, arg, p);
        ok == r.Done? && Abs() == if r.s.pending.Some? then FinishWrite(r.s) else r.s
    {
      var m, ct := lua[w].body.ptr, lua[w].body.ct;
      if key.None? { return false; }
      ok := true;
      if arg.Nil? {
        upb := upb[m := At(Abs(), m).(edges := At(Abs(), m).edges - {K(key.value)})];
      } else {
        var q;
        ok, q := ToValue(ct, w, arg, p);
        if !ok { return; }
        SetPointer(m, K(key.value), q);
        if ct.CMessage? {
          pending := Some((w, arg.id));
          FuseObjs(w, arg.id);
          pending := None;
        }
      }
    }

    /** lupb_MessageDef_pushsubmsgdef for the definition of message wrapper `w`. */
    method PushSub(w: LId, f: FieldDef) returns (e: LId)
      requires PoolAt(Abs(), Uv(Abs(), Uv(Abs(), w, MSGDEF_INDEX), SYMTAB_INDEX)) && next !in lua
      modifies this`lua, this`next
      ensures (Abs(), e) == PushSubDef(old(Abs()), w, f)
    {
      e := DefPoolPushWrapper(Uv(Abs(), Uv(Abs(), w, MSGDEF_INDEX), SYMTAB_INDEX), KDef(SubDef(MsgDef(Abs(), w), f)));
    }

    /** The kind of userdata a field takes, and lupb_msg_typechecksubmsg. */
    method CheckObject(w: LId, f: FieldDef, arg: Arg) returns (ok: bool)
      requires MsgAt(Abs(), w) && PoolAt(Abs(), Uv(Abs(), Uv(Abs(), w, MSGDEF_INDEX), SYMTAB_INDEX)) && next !in lua
      modifies this`lua, this`next
      ensures (ok, Abs()) == CheckField(old(Abs()), w, f, arg)
      ensures ok ==> arg.Obj? && arg.id in lua && IsWrapper(lua[arg.id].body) &&
                     arg.id in old(lua) && lua[arg.id].body == old(lua)[arg.id].body
    {
      ok := arg.Obj? && arg.id in lua && KindMatches(lua[arg.id].body, f);
      if ok && f.ct.CMessage? {
        var typed := Slot(Abs(), arg.id, MSGDEF_INDEX);
        var e := PushSub(w, f);
        ok := typed == Some(e);
      }
    }

    /** lupb_Message_Newindex: check, fuse, and then write. */
    method MessageNewindex(w: LId, name: string, arg: Arg, p: Ptr) returns (ok: bool)
      requires MsgAt(Abs(), w) && PoolAt(Abs(), Uv(Abs(), Uv(Abs(), w, MSGDEF_INDEX), SYMTAB_INDEX)) && next !in lua
      modifies this
      ensures var r := MsgSet(schema, old(Abs()), w, name, arg, p); ok == r.Done? && Abs() == r.s
    {
      var m := lua[w].body.ptr;
      var found := FindField(schema, MsgDef(Abs(), w), name);
      if found.None? { return false; }
      var f := found.value;
      var q: Option<Ptr>;
      if HoldsObject(f) {
        CheckKeepsArenas(Abs(), w, f, arg);
        ok := CheckObject(w, f, arg);
        if !ok { return; }
        q := Some(lua[arg.id].body.ptr);
        FuseObjs(w, arg.id);
      } else {
        ok, q := ToValue(f.ct, w, arg, p);
        if !ok { return; }
      }
      SetPointer(m, F(name), q);
    }

    /** upb_Message_SetFieldByDef and upb_Map_Set, as far as a pointer is stored. */
    method SetPointer(m: Ptr, l: Label, q: Option<Ptr>)
      modifies this`upb
      ensures Abs() == Store(old(Abs()), m, l, q)
    {
      if q.Some? {
        upb := upb[m := At(Abs(), m).(edges := At(Abs(), m).edges[l := q.value])];
      }
    }

    // ----- Reads -----

    /** A userdata with filled slots and a cache entry: the end of lupb_Message_Newwrapper. */
    method Wrap(id: LId, body: Body, uv: map<int, LId>)
      requires IsWrapper(body)
      modifies this`lua, this`cache, this`roots
      ensures Abs() == AddWrapper(old(Abs()), id, body, uv)
    {
      lua := lua[id := LuaObj(body, uv)];
      roots := roots + {id};
      CacheSet(body.ptr, id);
    }

    /** lupb_cacheget, else lupb_Message_Newwrapper. */
    method FieldObject(w: LId, f: FieldDef, q: Ptr) returns (id: LId)
      requires MsgAt(Abs(), w) && PoolAt(Abs(), Uv(Abs(), Uv(Abs(), w, MSGDEF_INDEX), SYMTAB_INDEX))
      requires next !in lua && next + 1 !in lua
      modifies this
      ensures Done(Abs(), Some(id)) == FieldWrapper(old(Abs()), w, f, q)
    {
      if q in cache {
        id := cache[q];
        roots := roots + {id};
        return;
      }
      id := next;
      next := next + 1;
      var arena := Arena(Abs(), w);
      if f.ct.CMessage? {
        var e := PushSub(w, f);
        Wrap(id, FieldBody(f, q), Slots(arena, Some(e)));
      } else {
        Wrap(id, FieldBody(f, q), Slots(arena, None));
      }
    }

    /** lupb_cacheget, else lupb_Message_Newmsgwrapper. */
    method ElementObject(w: LId, q: Ptr) returns (id: LId)
      requires WrapperAt(Abs(), w)
      modifies this
      ensures Done(Abs(), Some(id)) == ElemWrapper(old(Abs()), w, q)
    {
      if q in cache {
        id := cache[q];
        roots := roots + {id};
        return;
      }
      id := next;
      next := next + 1;
      Wrap(id, MsgB(q), Slots(Arena(Abs(), w), Slot(Abs(), w, MSGDEF_INDEX)));
    }

    /** lupb_msg_index. */
    method MessageIndex(w: LId, name: string, p: Ptr) returns (ok: bool, ret: Option<LId>)
      requires MsgAt(Abs(), w) && PoolAt(Abs(), Uv(Abs(), Uv(Abs(), w, MSGDEF_INDEX), SYMTAB_INDEX))
      requires next !in lua && next + 1 !in lua
      modifies this
      ensures MsgGet(schema, old(Abs()), w, name, p) == if ok then Done(Abs(), ret) else Raised(Abs())
    {
      ok, ret := true, None;
      var m := lua[w].body.ptr;
      var found := FindField(schema, MsgDef(Abs(), w), name);
      if found.None? { return false, None; }
      var f := found.value;
      if !HoldsObject(f) { return; }
      var q: Ptr;
      if F(name) in At(Abs(), m).edges {
        q := At(Abs(), m).edges[F(name)];
      } else if f.Single? {
        return;
      } else {
        q := p;
        upb := upb[p := Upb(Arena(Abs(), w), FieldType(MsgDef(Abs(), w), f), 0, map[])];
        upb := upb[m := At(Abs(), m).(edges := At(Abs(), m).edges[F(name) := p])];
      }
      var id := FieldObject(w, f, q);
      ret := Some(id);
    }

    /** lupb_array_index. */
    method ArrayIndex(w: LId, n: int) returns (ok: bool, ret: Option<LId>)
      requires WrapperAt(Abs(), w) && lua[w].body.ArrB?
      modifies this
      ensures ArrGet(old(Abs()), w, n) == if ok then Done(Abs(), ret) else Raised(Abs())
    {
      ok, ret := true, None;
      var o := At(Abs(), lua[w].body.ptr);
      if !(1 <= n <= o.len) { return false, None; }
      if lua[w].body.ct.CMessage? && I(n - 1) in o.edges {
        var id := ElementObject(w, o.edges[I(n - 1)]);
        ret := Some(id);
      }
    }

    /** lupb_map_index. */
    method MapIndex(w: LId, key: Option<string>) returns (ok: bool, ret: Option<LId>)
      requires WrapperAt(Abs(), w) && lua[w].body.MapB?
      modifies this
      ensures MapGet(old(Abs()), w, key) == if ok then Done(Abs(), ret) else Raised(Abs())
    {
      ok, ret := true, None;
      var o := At(Abs(), lua[w].body.ptr);
      if key.None? { return false, None; }
      if lua[w].body.ct.CMessage? && K(key.value) in o.edges {
        var id := ElementObject(w, o.edges[K(key.value)]);
        ret := Some(id);
      }
    }

    // ----- The collector -----

    /** lupb_Arena_gc and lupb_DefPool_gc: the object goes, and a pool is freed. */
    method Finalise(o: LId)
      requires o in lua
      modifies this`lua, this`frees
      ensures lua == old(lua) - {o}
      ensures frees == if old(lua)[o].body.PoolB? then OneMore(old(frees), old(lua)[o].body.pool) else old(frees)
    {
      if lua[o].body.PoolB? {
        frees := OneMore(frees, lua[o].body.pool);
      }
      lua := lua - {o};
    }

    /** The weak references to `dead` are cleared. */
    method ClearWeak(dead: set<LId>)
      modifies this`lua, this`cache
      ensures lua == Swept(old(Abs()), dead, {}) && cache == Collect(old(Abs()), dead).cache
    {
      cache := map p | p in cache && cache[p] !in dead :: cache[p];
      lua := map i | i in lua :: lua[i].(body := Sweep(lua[i].body, dead));
    }

    /** One collection: weak references go first, then each dead object is
        finalised, in any order. */
    method CollectGarbage(dead: set<LId>)
      requires dead <= lua.Keys
      modifies this`lua, this`cache, this`frees
      ensures Abs() == Collect(old(Abs()), dead)
    {
      ghost var s := Abs();
      ClearWeak(dead);
      var todo := dead;
      ghost var done: set<LId> := {};
      NothingFinalised(s);
      while todo != {}
        invariant done == dead - todo && todo <= dead
        invariant Abs() == Collecting(s, dead, done)
        decreases todo
      {
        NonEmpty(todo);
        var o: LId :| o in todo;
        FinaliseOne(s, dead, done, o);
        Finalise(o);
        todo, done := todo - {o}, done + {o};
      }
      assert done == dead;
      AllFinalised(s, dead);
    }

    // ----- Whole calls -----

    /** lupb_decode of well-formed input: a new message, and what upb fills it with. */
    method DecodeMessage(d: LId, p: Ptr, objs: map<Ptr, Upb>) returns (w: LId)
      requires DefAt(Abs(), d) && next !in lua && next + 1 !in lua && p in objs
      modifies this
      ensures Done(Abs(), Some(w)) == Decode(old(Abs()), d, p, objs)
    {
      ghost var s := Abs();
      w := MsgPushNew(d, p);
      upb := upb + objs;
      assert map[MSGDEF_INDEX := d][ARENA_INDEX := s.next + 1] == Slots(s.next + 1, Some(d));
      assert upb == s.upb + objs;
    }

    /** lupb_Encode and lupb_DefPool_AddFile: an arena that nothing keeps. */
    method ScratchArena()
      modifies this
      ensures Abs() == Scratch(old(Abs()))
    {
      var a := ArenaPushNew();
    }

    method Create(e: Event)
      requires Reachable(schema, Abs()) && pending.None? && Enabled(schema, Abs(), e) && IsCreation(e)
      modifies this
      ensures Abs() == AfterCall(schema, old(Abs()), e)
    {
      match e {
        case ENewPool(q) =>
          CallReady(schema, Abs(), 0);
          var id := DefPoolNew(q);
        case ENewMessage(d, p) =>
          CallReady(schema, Abs(), d);
          var w := MsgPushNew(d, p);
        case ENewArray(t, p) =>
          CallReady(schema, Abs(), 0);
          var w := ArrayNew(t, p);
        case ENewMap(kct, t, p) =>
          CallReady(schema, Abs(), 0);
          var w := MapNew(kct, t, p);
        case EDecode(d, p, objs) =>
          CallReady(schema, Abs(), d);
          var w := DecodeMessage(d, p, objs);
        case EScratch =>
          ScratchArena();
      }
    }

    method Write(e: Event)
      requires Reachable(schema, Abs()) && pending.None? && Enabled(schema, Abs(), e) && IsWrite(e)
      modifies this
      ensures Abs() == AfterCall(schema, old(Abs()), e)
    {
      match e {
        case EMsgSet(w, name, arg, p) =>
          CallReady(schema, Abs(), w);
          MsgSetPendsNothing(schema, Abs(), w, name, arg, p);
          var ok := MessageNewindex(w, name, arg, p);
        case EArrWrite(w, n, arg, p) =>
          var ok := ArrayNewindex(w, n, arg, p);
        case EMapWrite(w, key, arg, p) =>
          var ok := MapNewindex(w, key, arg, p);
        case EFinishWrite =>
      }
    }

    method Read(e: Event)
      requires Reachable(schema, Abs()) && pending.None? && Enabled(schema, Abs(), e) && IsRead(e)
      modifies this
      ensures Abs() == AfterCall(schema, old(Abs()), e)
    {
      match e {
        case EMsgGet(w, name, p) =>
          CallReady(schema, Abs(), w);
          MsgGetPendsNothing(schema, Abs(), w, name, p);
          var ok, ret := MessageIndex(w, name, p);
        case EArrGet(w, n) =>
          var ok, ret := ArrayIndex(w, n);
        case EMapGet(w, key) =>
          var ok, ret := MapIndex(w, key);
        case EPushDef(x, key) =>
          CallReady(schema, Abs(), x);
          var id := DefPoolPushWrapper(PoolOf(Abs(), x), key);
          roots := roots + {id};
      }
    }

    /** Every entry point that a Lua program can call in a reachable state leaves the state that
        its step in a run gives, and so a reachable one. */
    method Call(e: Event)
      requires Reachable(schema, Abs()) && pending.None? && Enabled(schema, Abs(), e)
      modifies this
      ensures Abs() == AfterCall(schema, old(Abs()), e) && Reachable(schema, Abs())
    {
      CallReachable(schema, Abs(), e);
      if IsCreation(e) {
        Create(e);
      } else if IsWrite(e) {
        Write(e);
      } else if IsRead(e) {
        Read(e);
      } else if e.EDrop? {
        roots := roots - {e.o};
      } else if e.ECollect? {
        CollectGarbage(e.dead);
      }
    }
  }

  // ----- Whole calls -----

  /** A state of some run. */
  ghost predicate Reachable(sc: Schema, s: State) {
    exists states, events :: IsRun(sc, states, events) && states[|events|] == s
  }

  lemma StartReachable(sc: Schema)
    ensures Reachable(sc, INITIAL)
  {
    var states: seq<State>, events: seq<Event> := [INITIAL], [];
    assert IsRun(sc, states, events) && states[|events|] == INITIAL;
  }

  lemma ReachableInv(sc: Schema, s: State)
    requires Reachable(sc, s)
    ensures Inv(sc, s)
  {
    var states, events :| IsRun(sc, states, events) && states[|events|] == s;
    RunKeeps(sc, states, events, |events|);
  }

  lemma OneStepMore(sc: Schema, s: State, e: Event)
    requires Reachable(sc, s) && Enabled(sc, s, e)
    ensures Reachable(sc, After(sc, s, e))
  {
    var states, events :| IsRun(sc, states, events) && states[|events|] == s;
    var states', events' := states + [After(sc, s, e)], events + [e];
    forall i | 0 <= i < |events'| ensures IsStep(sc, states', events', i) {
      if i < |events| { assert IsStep(sc, states, events, i); }
    }
    assert IsRun(sc, states', events') && states'[|events'|] == After(sc, s, e);
  }

  /** What a whole call does: its event, and the fuse that ends a write of a message. */
  ghost function AfterCall(sc: Schema, s: State, e: Event): State
    requires s.pending.None? && Enabled(sc, s, e)
  {
    var t := After(sc, s, e);
    if t.pending.Some? then After(sc, t, EFinishWrite) else t
  }

  lemma CallReachable(sc: Schema, s: State, e: Event)
    requires Reachable(sc, s) && s.pending.None? && Enabled(sc, s, e)
    ensures Reachable(sc, AfterCall(sc, s, e))
  {
    OneStepMore(sc, s, e);
    if After(sc, s, e).pending.Some? { OneStepMore(sc, After(sc, s, e), EFinishWrite); }
  }

  /** The type check may add a definition wrapper, but moves no arena. */
  lemma CheckKeepsArenas(s: State, w: LId, f: FieldDef, arg: Arg)
    requires s.next !in s.lua && MsgAt(s, w)
    ensures var (ok, t) := CheckField(s, w, f, arg);
      Arena(t, w) == Arena(s, w) && (ok ==> Arena(t, arg.id) == Arena(s, arg.id))
  {
  }

  lemma PushPendsNothing(s: State, w: LId, f: FieldDef)
    ensures PushSubDef(s, w, f).0.pending == s.pending
  {
  }

  lemma MsgSetPendsNothing(sc: Schema, s: State, w: LId, name: string, arg: Arg, p: Ptr)
    requires MsgAt(s, w)
    ensures MsgSet(sc, s, w, name, arg, p).s.pending == s.pending
  {
    if FindField(sc, MsgDef(s, w), name).Some? {
      PushPendsNothing(s, w, FindField(sc, MsgDef(s, w), name).value);
    }
  }

  lemma FieldWrapperPendsNothing(s: State, w: LId, f: FieldDef, q: Ptr)
    ensures FieldWrapper(s, w, f, q).s.pending == s.pending
  {
    PushPendsNothing(Bump(s, 1), w, f);
  }

  lemma MsgGetPendsNothing(sc: Schema, s: State, w: LId, name: string, p: Ptr)
    requires MsgAt(s, w)
    ensures MsgGet(sc, s, w, name, p).s.pending == s.pending
  {
    if FindField(sc, MsgDef(s, w), name).Some? {
      var f := FindField(sc, MsgDef(s, w), name).value;
      var m := s.lua[w].body.ptr;
      if HoldsObject(f) && F(name) in At(s, m).edges {
        FieldWrapperPendsNothing(s, w, f, At(s, m).edges[F(name)]);
      } else if HoldsObject(f) && !f.Single? {
        var o := Upb(Arena(s, w), FieldType(MsgDef(s, w), f), 0, map[]);
        FieldWrapperPendsNothing(SetPtr(AddUpb(s, p, o), m, F(name), p), w, f, p);
      }
    }
  }

  /** In reachable states new identities are new, and a message wrapper's definition has its pool. */
  lemma CallReady(sc: Schema, s: State, w: LId)
    requires Reachable(sc, s)
    ensures s.next !in s.lua && s.next + 1 !in s.lua
    ensures MsgAt(s, w) ==> PoolAt(s, Uv(s, Uv(s, w, MSGDEF_INDEX), SYMTAB_INDEX))
    ensures DefAt(s, w) ==> PoolAt(s, Uv(s, w, SYMTAB_INDEX))
  {
    ReachableInv(sc, s);
    if MsgAt(s, w) { assert TypedWrapper(s, w) && DefOk(s, Uv(s, w, MSGDEF_INDEX)); }
    if DefAt(s, w) { assert DefOk(s, w); }
  }

  lemma NonEmpty(todo: set<LId>)
    requires todo != {}
    ensures exists o: LId :: o in todo
  {
    if forall o: LId :: o !in todo {
      assert false;
    }
  }

  /** In the middle of a collection. */
  ghost function Collecting(s: State, dead: set<LId>, done: set<LId>): State {
    s.(lua := Swept(s, dead, done), cache := Collect(s, dead).cache, frees := FreesAfter(s, done))
  }

  function OneMore(frees: map<int, int>, q: int): map<int, int> {
    if q in frees then frees[q := frees[q] + 1] else frees
  }

  /** The Lua objects once the weak references to `dead` are cleared and `done` is finalised. */
  ghost function Swept(s: State, dead: set<LId>, done: set<LId>): map<LId, LuaObj> {
    map i | i in s.lua && i !in done :: s.lua[i].(body := Sweep(s.lua[i].body, dead))
  }

  ghost function FreesAfter(s: State, done: set<LId>): map<int, int> {
    map q | q in s.frees :: s.frees[q] + |DeadOwners(s, done, q)|
  }

  lemma NothingFinalised(s: State)
    ensures FreesAfter(s, {}) == s.frees
  {
    forall q: int ensures DeadOwners(s, {}, q) == {} {}
  }

  lemma AllFinalised(s: State, dead: set<LId>)
    ensures Collecting(s, dead, dead) == Collect(s, dead)
  {
  }

  lemma FinaliseOne(s: State, dead: set<LId>, done: set<LId>, o: LId)
    requires o in s.lua && o !in done
    ensures o in Swept(s, dead, done) && Swept(s, dead, done + {o}) == Swept(s, dead, done) - {o}
    ensures var b := Swept(s, dead, done)[o].body;
      && (b.PoolB? <==> s.lua[o].body.PoolB?) && (b.PoolB? ==> b.pool == s.lua[o].body.pool)
    ensures FreesAfter(s, done + {o}) ==
            if s.lua[o].body.PoolB? then OneMore(FreesAfter(s, done), s.lua[o].body.pool) else FreesAfter(s, done)
  {
    forall q: int { OwnersOne(s, done, o, q); }
  }

  lemma OwnersOne(s: State, done: set<LId>, o: LId, q: int)
    requires o !in done
    ensures |DeadOwners(s, done + {o}, q)| == |DeadOwners(s, done, q)| + if Owns(s, o, q) then 1 else 0
  {
    if Owns(s, o, q) {
      assert DeadOwners(s, done + {o}, q) == DeadOwners(s, done, q) + {o};
    } else {
      assert DeadOwners(s, done + {o}, q) == DeadOwners(s, done, q);
    }
  }
}
