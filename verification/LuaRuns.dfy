/** Whole runs of the Lua binding: every operation keeps the invariant, so in
    every reachable state the memory reachable from a live wrapper is
    unreleased, the cache is exact, types agree and pools are freed once. */
module LuaRuns {
  import opened Common
  import opened LuaState
  import opened LuaSteps
  import opened LuaMemory
  import opened LuaTypes

  /** One step of a run. `p` is the address malloc hands out, if it is asked. */
  datatype Event =
    | ENewPool(q: int)
    | EPushDef(x: LId, def: DefKey)
    | ENewMessage(d: LId, p: Ptr)
    | ENewArray(t: TypeArg, p: Ptr)
    | ENewMap(kct: CType, t: TypeArg, p: Ptr)
    | EMsgSet(w: LId, name: string, arg: Arg, p: Ptr)
    | EArrWrite(w: LId, n: int, arg: Arg, p: Ptr)
    | EMapWrite(w: LId, key: Option<string>, arg: Arg, p: Ptr)
    | EFinishWrite
    | EMsgGet(w: LId, name: string, p: Ptr)
    | EArrGet(w: LId, n: int)
    | EMapGet(w: LId, key: Option<string>)
    | EDecode(d: LId, p: Ptr, objs: map<Ptr, Upb>)
    | EScratch
    | EDrop(o: LId)
    | ECollect(dead: set<LId>)

  /** An argument that is an object is held by the Lua stack. */
  ghost predicate Held(s: State, arg: Arg) {
    arg.Obj? ==> arg.id in s.roots
  }

  ghost predicate TypeArgOk(s: State, t: TypeArg) {
    t.ByDef? ==> t.d in s.roots && DefAt(s, t.d)
  }

  /** What upb's decoder promises: objects at distinct fresh addresses, all in
      the message's arena, that point only to each other, well typed; the
      message itself is among them. */
  ghost predicate DecoderOk(sc: Schema, s: State, d: LId, p: Ptr, objs: map<Ptr, Upb>)
    requires DefAt(s, d)
  {
    && p in objs && objs[p].ty == TMsg(s.lua[d].body.def)
    && (forall q :: q in objs ==> FreshPtr(s, q) && objs[q].owner == s.next + 1)
    && (forall q :: q in objs ==> DecodedOk(sc, objs, q))
  }

  ghost predicate DecodedOk(sc: Schema, objs: map<Ptr, Upb>, q: Ptr)
    requires q in objs
  {
    && (forall l :: l in objs[q].edges ==>
          objs[q].edges[l] in objs && EdgeType(sc, objs[q].ty, l, objs[objs[q].edges[l]].ty))
    && (objs[q].ty.TArr? ==> FilledSlots(objs[q]))
  }

  /** A definition of the pool, or the pool itself. */
  ghost predicate KeyOfPool(s: State, pool: LId, key: DefKey) {
    PoolAt(s, pool) &&
    var q := s.lua[pool].body.pool;
    key == KPool(q) || (key.KDef? && key.def.pool == q)
  }

  /** What the runtime guarantees when it takes the step: userdata of the right
      kind on the stack, fresh addresses, garbage that is garbage. Between a
      write and its fuse only the collector may run. */
  ghost predicate Enabled(sc: Schema, s: State, e: Event) {
    match e
    case ECollect(dead) => Garbage(s, dead)
    case EFinishWrite => s.pending.Some?
    case ENewPool(q) => s.pending.None? && q !in s.frees
    case EPushDef(x, key) => s.pending.None? && x in s.roots && KeyOfPool(s, PoolOf(s, x), key)
    case ENewMessage(d, p) => s.pending.None? && d in s.roots && DefAt(s, d) && FreshPtr(s, p)
    case ENewArray(t, p) => s.pending.None? && TypeArgOk(s, t) && FreshPtr(s, p)
    case ENewMap(_, t, p) => s.pending.None? && TypeArgOk(s, t) && FreshPtr(s, p)
    case EMsgSet(w, _, arg, p) => s.pending.None? && HeldMsg(s, w) && Held(s, arg) && FreshPtr(s, p)
    case EArrWrite(w, _, arg, p) => s.pending.None? && HeldArr(s, w) && Held(s, arg) && FreshPtr(s, p)
    case EMapWrite(w, _, arg, p) => s.pending.None? && HeldMap(s, w) && Held(s, arg) && FreshPtr(s, p)
    case EMsgGet(w, _, p) => s.pending.None? && HeldMsg(s, w) && FreshPtr(s, p)
    case EArrGet(w, _) => s.pending.None? && HeldArr(s, w)
    case EMapGet(w, _) => s.pending.None? && HeldMap(s, w)
    case EDecode(d, p, objs) => s.pending.None? && d in s.roots && DefAt(s, d) && DecoderOk(sc, s, d, p, objs)
    case EScratch => s.pending.None?
    case EDrop(_) => s.pending.None?
  }

  ghost predicate HeldMsg(s: State, w: LId) {
    w in s.roots && MsgAt(s, w)
  }

  ghost predicate HeldArr(s: State, w: LId) {
    w in s.roots && WrapperAt(s, w) && s.lua[w].body.ArrB?
  }

  ghost predicate HeldMap(s: State, w: LId) {
    w in s.roots && WrapperAt(s, w) && s.lua[w].body.MapB?
  }

  /** The state after a step. */
  ghost function After(sc: Schema, s: State, e: Event): State
    requires Enabled(sc, s, e)
  {
    match e
    case ENewPool(q) => NewPool(s, q).s
    case EPushDef(x, key) => PushDef(s, x, key).s
    case ENewMessage(d, p) => NewMessage(s, d, p).s
    case ENewArray(t, p) => NewArray(s, t, p).s
    case ENewMap(kct, t, p) => NewMap(s, kct, t, p).s
    case EMsgSet(w, name, arg, p) => MsgSet(sc, s, w, name, arg, p).s
    case EArrWrite(w, n, arg, p) => ArrWrite(s, w, n, arg, p).s
    case EMapWrite(w, key, arg, p) => MapWrite(s, w, key, arg, p).s
    case EFinishWrite => FinishWrite(s)
    case EMsgGet(w, name, p) => MsgGet(sc, s, w, name, p).s
    case EArrGet(w, n) => ArrGet(s, w, n).s
    case EMapGet(w, key) => MapGet(s, w, key).s
    case EDecode(d, p, objs) => Decode(s, d, p, objs).s
    case EScratch => Scratch(s)
    case EDrop(o) => Drop(s, o)
    case ECollect(dead) => Collect(s, dead)
  }

  // ----- Creation -----

  lemma InvBump(sc: Schema, s: State, n: nat)
    requires Inv(sc, s)
    ensures Inv(sc, Bump(s, n))
  {
    KeepBump(s, n);
    KeepTypesSame(sc, s, Bump(s, n));
  }

  lemma InvAddArena(sc: Schema, s: State, a: LId)
    requires Inv(sc, s) && s.pending.None? && FreshId(s, a)
    ensures Inv(sc, AddArena(s, a))
  {
    KeepArena(s, a);
    KeepTypesArena(sc, s, a);
  }

  lemma FreshAfterArena(s: State, a: LId, p: Ptr)
    requires Owned(s) && s.pending.None? && FreshId(s, a) && FreshPtr(s, p)
    ensures FreshPtr(AddArena(s, a), p)
  {
    ArenaAdded(s, a);
    if p in s.upb { assert ArenaKept(s, AddArena(s, a), s.upb[p].owner); }
  }

  lemma InvNewUpb(sc: Schema, s: State, p: Ptr, o: Upb)
    requires Inv(sc, s) && FreshPtr(s, p) && o.owner in s.group && o.edges == map[] && (o.ty.TArr? ==> o.len == 0)
    ensures Inv(sc, AddUpb(s, p, o))
    ensures p !in s.cache
  {
    KeepNewUpb(s, p, o);
    KeepTypesNewUpb(sc, s, p, o);
    FreshNotCached(s, p);
  }

  /** A new wrapper: its slots refer to live objects, and they name its object's group and type. */
  ghost predicate WrapperFits(s: State, w: LId, body: Body, uv: map<int, LId>) {
    && IsWrapper(body) && body.ptr in s.upb && body.ptr !in s.cache
    && (forall k :: k in uv ==> uv[k] in s.lua)
    && ARENA_INDEX in uv && s.lua[uv[ARENA_INDEX]].body.ArenaB?
    && Together(s, uv[ARENA_INDEX], s.upb[body.ptr].owner)
    && (MSGDEF_INDEX in uv ==> DefAt(s, uv[MSGDEF_INDEX]))
    && BodyType(body, if MSGDEF_INDEX in uv then Some(s.lua[uv[MSGDEF_INDEX]].body.def) else None, s.upb[body.ptr].ty)
  }

  lemma InvWrapper(sc: Schema, s: State, w: LId, body: Body, uv: map<int, LId>)
    requires Inv(sc, s) && FreshId(s, w) && s.pending.None? && WrapperFits(s, w, body, uv)
    ensures Inv(sc, AddWrapper(s, w, body, uv))
  {
    KeepWrapper(s, w, body, uv);
    FitsTyped(s, w, body, uv);
    KeepTypesWrapper(sc, s, w, body, uv);
  }

  lemma FitsTyped(s: State, w: LId, body: Body, uv: map<int, LId>)
    requires w !in s.lua && WrapperFits(s, w, body, uv)
    ensures TypedWrapper(AddWrapper(s, w, body, uv), w)
  {
    var t := AddWrapper(s, w, body, uv);
    assert SlotDef(t, w) == if MSGDEF_INDEX in uv then Some(s.lua[uv[MSGDEF_INDEX]].body.def) else None;
  }

  lemma KeepFreshArena(sc: Schema, s: State)
    requires Inv(sc, s) && s.pending.None?
    ensures Inv(sc, AddArena(Bump(s, 2), s.next + 1))
  {
    assert Inv(sc, Bump(s, 2)) by { InvBump(sc, s, 2); }
    InvAddArena(sc, Bump(s, 2), s.next + 1);
  }

  lemma StillFresh(sc: Schema, s: State, p: Ptr)
    requires Inv(sc, s) && s.pending.None? && FreshPtr(s, p)
    ensures FreshPtr(AddArena(Bump(s, 2), s.next + 1), p)
  {
    FreshAfterArena(Bump(s, 2), s.next + 1, p);
  }

  lemma AllocatedIn(sc: Schema, s: State, t: State, p: Ptr, ty: UType)
    requires t == AddArena(Bump(s, 2), s.next + 1) && Inv(sc, t) && FreshPtr(t, p)
    ensures Inv(sc, Allocate(s, p, ty)) && p !in s.cache
  {
    InvNewUpb(sc, t, p, Upb(s.next + 1, ty, 0, map[]));
  }

  lemma KeepAllocate(sc: Schema, s: State, p: Ptr, ty: UType)
    requires Inv(sc, s) && s.pending.None? && FreshPtr(s, p)
    ensures Inv(sc, Allocate(s, p, ty)) && p !in s.cache
  {
    StillFresh(sc, s, p);
    KeepFreshArena(sc, s);
    AllocatedIn(sc, s, AddArena(Bump(s, 2), s.next + 1), p, ty);
  }

  lemma NewFits(s: State, p: Ptr, ty: UType, body: Body, slots: map<int, LId>)
    requires Identities(s) && s.pending.None? && IsWrapper(body) && body.ptr == p && p !in s.cache
    requires forall k :: k in slots ==> slots[k] in s.lua
    requires MSGDEF_INDEX in slots ==> DefAt(s, slots[MSGDEF_INDEX])
    requires BodyType(body, if MSGDEF_INDEX in slots then Some(s.lua[slots[MSGDEF_INDEX]].body.def) else None, ty)
    ensures WrapperFits(Allocate(s, p, ty), s.next, body, slots[ARENA_INDEX := s.next + 1])
    ensures FreshId(Allocate(s, p, ty), s.next)
  {
  }

  lemma KeepNewObject(sc: Schema, s: State, p: Ptr, ty: UType, body: Body, slots: map<int, LId>)
    requires Inv(sc, s) && s.pending.None? && FreshPtr(s, p) && IsWrapper(body) && body.ptr == p
    requires forall k :: k in slots ==> slots[k] in s.lua
    requires MSGDEF_INDEX in slots ==> DefAt(s, slots[MSGDEF_INDEX])
    requires BodyType(body, if MSGDEF_INDEX in slots then Some(s.lua[slots[MSGDEF_INDEX]].body.def) else None, ty)
    ensures Inv(sc, NewObject(s, p, ty, body, slots).s)
  {
    assert Inv(sc, NewObject(s, p, ty, body, slots).s) by {
      assert Inv(sc, Allocate(s, p, ty)) && p !in s.cache by { KeepAllocate(sc, s, p, ty); }
      NewFits(s, p, ty, body, slots);
      InvWrapper(sc, Allocate(s, p, ty), s.next, body, slots[ARENA_INDEX := s.next + 1]);
    }
  }

  lemma InvRoots(sc: Schema, s: State, roots: set<LId>)
    requires Inv(sc, s) && roots <= s.lua.Keys
    requires s.pending.Some? ==> s.pending.value.0 in roots && s.pending.value.1 in roots
    ensures Inv(sc, s.(roots := roots))
  {
    KeepRoots(s, roots);
    KeepTypesSame(sc, s, s.(roots := roots));
  }

  // ----- Writes -----

  /** Storing a well-typed pointer to an object of the same group; an array
      grows when the slot is the one after its last. */
  lemma InvWritePtr(sc: Schema, s: State, p: Ptr, l: Label, q: Ptr, n: nat)
    requires Inv(sc, s) && p in s.upb && !Released(s, s.upb[p].owner)
    requires EdgeInGroup(s, p, q) && EdgeType(sc, s.upb[p].ty, l, s.upb[q].ty)
    requires s.upb[p].ty.TArr? ==> l.index <= s.upb[p].len && n == Grown(s.upb[p], l.index)
    ensures Inv(sc, AddUpb(s, p, Stored(s.upb[p], l, q, n)))
  {
    var o := Stored(s.upb[p], l, q, n);
    KeepRewrite(s, p, o);
    WrittenTyped(sc, s, p, l, q, n);
    KeepTypesRewrite(sc, s, p, o);
  }

  lemma WrittenTyped(sc: Schema, s: State, p: Ptr, l: Label, q: Ptr, n: nat)
    requires p in s.upb && TypedEdges(sc, s, p) && q in s.upb && EdgeType(sc, s.upb[p].ty, l, s.upb[q].ty)
    requires s.upb[p].ty.TArr? ==> l.index <= s.upb[p].len && n == Grown(s.upb[p], l.index)
    ensures TypedEdges(sc, AddUpb(s, p, Stored(s.upb[p], l, q, n)), p)
  {
    var o := Stored(s.upb[p], l, q, n);
    var t := AddUpb(s, p, o);
    forall k | k in o.edges ensures TypedEdge(sc, t, p, k) {
      if k != l { assert TypedEdge(sc, s, p, k); }
    }
    forall i: nat | o.ty.TArr? && i < o.len ensures HasSlot(o, i) {
      if i < s.upb[p].len { assert HasSlot(s.upb[p], i); }
    }
  }

  /** Removing map entries, or setting the length of an array of plain values. */
  lemma InvPlainWrite(sc: Schema, s: State, p: Ptr, o: Upb)
    requires Inv(sc, s) && p in s.upb && !Released(s, s.upb[p].owner)
    requires o.owner == s.upb[p].owner && o.ty == s.upb[p].ty
    requires forall l :: l in o.edges ==> l in s.upb[p].edges && o.edges[l] == s.upb[p].edges[l]
    requires o.ty.TArr? ==> !o.ty.ct.CMessage? && !IsText(o.ty.ct) && s.upb[p].len <= o.len
    ensures Inv(sc, AddUpb(s, p, o))
  {
    KeepRewrite(s, p, o);
    PlainTyped(sc, s, p, o);
    KeepTypesRewrite(sc, s, p, o);
  }

  lemma PlainTyped(sc: Schema, s: State, p: Ptr, o: Upb)
    requires p in s.upb && TypedEdges(sc, s, p) && o.ty == s.upb[p].ty
    requires forall l :: l in o.edges ==> l in s.upb[p].edges && o.edges[l] == s.upb[p].edges[l]
    requires o.ty.TArr? ==> !o.ty.ct.CMessage? && !IsText(o.ty.ct) && s.upb[p].len <= o.len
    ensures TypedEdges(sc, AddUpb(s, p, o), p)
  {
    forall l | l in o.edges ensures TypedEdge(sc, AddUpb(s, p, o), p, l) { assert TypedEdge(sc, s, p, l); }
  }

  /** The facts about a wrapper that its operations start from. */
  lemma WrapperFacts(sc: Schema, s: State, w: LId)
    requires Inv(sc, s) && WrapperAt(s, w)
    ensures HoldsArena(s, w) && TypedWrapper(s, w)
    ensures s.lua[w].body.ptr in s.upb && s.upb[s.lua[w].body.ptr].owner in s.group
    ensures !Released(s, s.upb[s.lua[w].body.ptr].owner)
    ensures MSGDEF_INDEX in s.lua[w].uv ==>
      var d := s.lua[w].uv[MSGDEF_INDEX]; DefAt(s, d) && DefOk(s, d)
  {
    assert HoldsArena(s, w) && TypedWrapper(s, w);
    WrapperAlive(s, w);
  }

  /** A string copied into the arena of `w`. */
  lemma InvCopyText(sc: Schema, s: State, w: LId, p: Ptr)
    requires Inv(sc, s) && WrapperAt(s, w) && FreshPtr(s, p)
    ensures var t := WithText(s, w, p);
      && Inv(sc, t) && s.lua[w].body.ptr in t.upb && s.lua[w].body.ptr != p
      && s.lua[w].body.ptr in s.upb && t.upb[s.lua[w].body.ptr] == s.upb[s.lua[w].body.ptr]
      && EdgeInGroup(t, s.lua[w].body.ptr, p) && !Released(t, t.upb[s.lua[w].body.ptr].owner)
  {
    WrapperFacts(sc, s, w);
    FreshNotCached(s, p);
    InvNewUpb(sc, s, p, Upb(Arena(s, w), TStr, 0, map[]));
  }

  /** A message that passed its type check may be stored in the container once
      the two wrappers' groups count as one. */
  lemma PendedEdge(sc: Schema, s: State, w: LId, v: LId)
    requires Inv(sc, s) && s.pending.None? && w in s.roots && v in s.roots && WrapperAt(s, w) && WrapperAt(s, v)
    ensures var t := s.(pending := Some((w, v)));
      && Inv(sc, t) && s.lua[w].body.ptr in s.upb && EdgeInGroup(t, s.lua[w].body.ptr, s.lua[v].body.ptr)
      && !Released(t, s.upb[s.lua[w].body.ptr].owner)
  {
    WrapperFacts(sc, s, w);
    WrapperFacts(sc, s, v);
    KeepPend(s, w, v);
    KeepTypesSame(sc, s, s.(pending := Some((w, v))));
    PendedTogether(s, w, v);
  }

  lemma PendedTogether(s: State, w: LId, v: LId)
    requires s.pending.None? && WrapperAt(s, w) && HoldsArena(s, w) && WrapperAt(s, v) && HoldsArena(s, v)
    ensures Together(s.(pending := Some((w, v))), s.upb[s.lua[w].body.ptr].owner, s.upb[s.lua[v].body.ptr].owner)
  {
  }

  /** The object after a pointer has been stored in it. */
  ghost function Stored(o: Upb, l: Label, q: Ptr, n: nat): Upb {
    o.(edges := o.edges[l := q], len := n)
  }

  ghost function Grown(o: Upb, i: nat): nat {
    if i == o.len then i + 1 else o.len
  }

  ghost function WithText(s: State, w: LId, p: Ptr): State {
    AddUpb(s, p, Upb(Arena(s, w), TStr, 0, map[]))
  }

  lemma ArrWriteForm(s: State, w: LId, n: int, arg: Arg, p: Ptr)
    requires WrapperAt(s, w) && s.lua[w].body.ArrB? && s.lua[w].body.ptr != p
    ensures var (arr, ct) := (s.lua[w].body.ptr, s.lua[w].body.ct);
      var (o, t) := (At(s, arr), ArrWrite(s, w, n, arg, p).s);
      if !(1 <= n <= o.len + 1 && ToMsgVal(s, ct, w, arg, p).Some?) then t == s
      else
        var i: nat := n - 1;
        if ct.CMessage? then
          MsgAt(s, arg.id) &&
          t == AddUpb(s.(pending := Some((w, arg.id))), arr, Stored(o, I(i), s.lua[arg.id].body.ptr, Grown(o, i)))
        else if IsText(ct) then
          t == AddUpb(WithText(s, w, p), arr, Stored(o, I(i), p, Grown(o, i)))
        else t == AddUpb(s, arr, o.(len := Grown(o, i)))
  {
  }

  lemma KeepArrWrite(sc: Schema, s: State, w: LId, n: int, arg: Arg, p: Ptr)
    requires Inv(sc, s) && s.pending.None? && w in s.roots && WrapperAt(s, w) && s.lua[w].body.ArrB?
    requires Held(s, arg) && FreshPtr(s, p)
    ensures Inv(sc, ArrWrite(s, w, n, arg, p).s)
  {
    var arr, ct := s.lua[w].body.ptr, s.lua[w].body.ct;
    assert arr != p by { FreshNotCached(s, p); }
    if !(1 <= n <= At(s, arr).len + 1) || ToMsgVal(s, ct, w, arg, p).None? {
      assert ArrWrite(s, w, n, arg, p).s == s;
    } else {
      if ct.CMessage? { KeepArrMessage(sc, s, w, n, arg, p); }
      else if IsText(ct) { KeepArrText(sc, s, w, n, arg, p); }
      else { KeepArrPlain(sc, s, w, n, arg, p); }
    }
  }

  lemma KeepArrMessage(sc: Schema, s: State, w: LId, n: int, arg: Arg, p: Ptr)
    requires Inv(sc, s) && s.pending.None? && w in s.roots && WrapperAt(s, w) && s.lua[w].body.ArrB?
    requires Held(s, arg) && FreshPtr(s, p) && s.lua[w].body.ptr != p
    requires 1 <= n <= At(s, s.lua[w].body.ptr).len + 1 && s.lua[w].body.ct.CMessage?
    requires ToMsgVal(s, CMessage, w, arg, p).Some?
    ensures Inv(sc, ArrWrite(s, w, n, arg, p).s)
  {
    ArrWriteForm(s, w, n, arg, p);
    WrapperFacts(sc, s, w);
    StoreElem(sc, s, w, arg.id, I(n - 1), Grown(At(s, s.lua[w].body.ptr), n - 1));
  }

  lemma KeepArrText(sc: Schema, s: State, w: LId, n: int, arg: Arg, p: Ptr)
    requires Inv(sc, s) && s.pending.None? && w in s.roots && WrapperAt(s, w) && s.lua[w].body.ArrB?
    requires Held(s, arg) && FreshPtr(s, p) && s.lua[w].body.ptr != p
    requires 1 <= n <= At(s, s.lua[w].body.ptr).len + 1 && IsText(s.lua[w].body.ct)
    requires ToMsgVal(s, s.lua[w].body.ct, w, arg, p).Some?
    ensures Inv(sc, ArrWrite(s, w, n, arg, p).s)
  {
    ArrWriteForm(s, w, n, arg, p);
    WrapperFacts(sc, s, w);
    StoreText(sc, s, w, p, I(n - 1), Grown(At(s, s.lua[w].body.ptr), n - 1));
  }

  lemma KeepArrPlain(sc: Schema, s: State, w: LId, n: int, arg: Arg, p: Ptr)
    requires Inv(sc, s) && s.pending.None? && w in s.roots && WrapperAt(s, w) && s.lua[w].body.ArrB?
    requires Held(s, arg) && FreshPtr(s, p) && s.lua[w].body.ptr != p
    requires 1 <= n <= At(s, s.lua[w].body.ptr).len + 1 && !s.lua[w].body.ct.CMessage? && !IsText(s.lua[w].body.ct)
    ensures Inv(sc, ArrWrite(s, w, n, arg, p).s)
  {
    var o := At(s, s.lua[w].body.ptr);
    ArrWriteForm(s, w, n, arg, p);
    WrapperFacts(sc, s, w);
    if ToMsgVal(s, s.lua[w].body.ct, w, arg, p).Some? {
      InvPlainWrite(sc, s, s.lua[w].body.ptr, o.(len := Grown(o, n - 1)));
    }
  }

  lemma MapWriteForm(s: State, w: LId, key: Option<string>, arg: Arg, p: Ptr)
    requires WrapperAt(s, w) && s.lua[w].body.MapB? && s.lua[w].body.ptr != p
    ensures var (m, ct) := (s.lua[w].body.ptr, s.lua[w].body.ct);
      var (o, t) := (At(s, m), MapWrite(s, w, key, arg, p).s);
      if key.None? then t == s
      else if arg.Nil? then t == AddUpb(s, m, o.(edges := o.edges - {K(key.value)}))
      else if ToMsgVal(s, ct, w, arg, p).None? then t == s
      else if ct.CMessage? then
        MsgAt(s, arg.id) &&
        t == AddUpb(s.(pending := Some((w, arg.id))), m, Stored(o, K(key.value), s.lua[arg.id].body.ptr, o.len))
      else if IsText(ct) then
        t == AddUpb(WithText(s, w, p), m, Stored(o, K(key.value), p, o.len))
      else t == s
  {
  }

  lemma KeepMapWrite(sc: Schema, s: State, w: LId, key: Option<string>, arg: Arg, p: Ptr)
    requires Inv(sc, s) && s.pending.None? && w in s.roots && WrapperAt(s, w) && s.lua[w].body.MapB?
    requires Held(s, arg) && FreshPtr(s, p)
    ensures Inv(sc, MapWrite(s, w, key, arg, p).s)
  {
    var m, ct := s.lua[w].body.ptr, s.lua[w].body.ct;
    FreshNotCached(s, p);
    MapWriteForm(s, w, key, arg, p);
    WrapperFacts(sc, s, w);
    var o := At(s, m);
    if key.Some? {
      if arg.Nil? {
        InvPlainWrite(sc, s, m, o.(edges := o.edges - {K(key.value)}));
      } else if ToMsgVal(s, ct, w, arg, p).Some? {
        if ct.CMessage? {
          StoreElem(sc, s, w, arg.id, K(key.value), o.len);
        } else if IsText(ct) {
          StoreText(sc, s, w, p, K(key.value), o.len);
        }
      }
    }
  }

  lemma StoreElem(sc: Schema, s: State, w: LId, v: LId, l: Label, m: nat)
    requires Inv(sc, s) && s.pending.None? && w in s.roots && v in s.roots
    requires WrapperAt(s, w) && !s.lua[w].body.MsgB? && s.lua[w].body.ct.CMessage? && MsgAt(s, v)
    requires Slot(s, w, MSGDEF_INDEX) == Slot(s, v, MSGDEF_INDEX)
    requires s.lua[w].body.ptr in s.upb && FitsSlot(s.lua[w].body, s.upb[s.lua[w].body.ptr], l, m)
    ensures var p := s.lua[w].body.ptr;
      Inv(sc, AddUpb(s.(pending := Some((w, v))), p, Stored(s.upb[p], l, s.lua[v].body.ptr, m)))
  {
    WrapperFacts(sc, s, w);
    WrapperFacts(sc, s, v);
    PendedEdge(sc, s, w, v);
    var p, q := s.lua[w].body.ptr, s.lua[v].body.ptr;
    assert SlotDef(s, w) == SlotDef(s, v);
    assert EdgeType(sc, s.upb[p].ty, l, s.upb[q].ty);
    InvWritePtr(sc, s.(pending := Some((w, v))), p, l, q, m);
  }

  /** An index up to the end of the array, or a map key. */
  ghost predicate FitsSlot(b: Body, o: Upb, l: Label, m: nat) {
    if b.ArrB? then l.I? && l.index <= o.len && m == Grown(o, l.index) else b.MapB? && l.K?
  }

  lemma StoreText(sc: Schema, s: State, w: LId, p: Ptr, l: Label, m: nat)
    requires Inv(sc, s) && WrapperAt(s, w) && FreshPtr(s, p)
    requires !s.lua[w].body.MsgB? && IsText(s.lua[w].body.ct)
    requires s.lua[w].body.ptr in s.upb && FitsSlot(s.lua[w].body, s.upb[s.lua[w].body.ptr], l, m)
    ensures var q := s.lua[w].body.ptr;
      Inv(sc, AddUpb(WithText(s, w, p), q, Stored(s.upb[q], l, p, m)))
  {
    var q := s.lua[w].body.ptr;
    WrapperFacts(sc, s, w);
    InvCopyText(sc, s, w, p);
    InvWritePtr(sc, WithText(s, w, p), q, l, p, m);
  }

  lemma KeepPushSub(sc: Schema, s: State, w: LId, f: FieldDef)
    requires Inv(sc, s) && s.pending.None? && MsgAt(s, w)
    ensures var (t, e) := PushSubDef(s, w, f);
      Inv(sc, t) && Pushed(s, t) && DefAt(t, e) && DefOf(t, e) == SubDef(MsgDef(s, w), f)
  {
    WrapperFacts(sc, s, w);
    var d := Uv(s, w, MSGDEF_INDEX);
    KeepTypesPush(sc, s, Uv(s, d, SYMTAB_INDEX), KDef(SubDef(MsgDef(s, w), f)));
    PushWrapperKeeps(s, Uv(s, d, SYMTAB_INDEX), KDef(SubDef(MsgDef(s, w), f)));
  }

  // ----- Message fields -----

  lemma KeepCheckField(sc: Schema, s: State, w: LId, f: FieldDef, arg: Arg)
    requires Inv(sc, s) && s.pending.None? && MsgAt(s, w)
    ensures Inv(sc, CheckField(s, w, f, arg).1) && Pushed(s, CheckField(s, w, f, arg).1)
  {
    var t := CheckField(s, w, f, arg).1;
    assert t == s || t == PushSubDef(s, w, f).0;
    if t == PushSubDef(s, w, f).0 { KeepPushSub(sc, s, w, f); }
  }

  /** An object that passed the type checks has the type its field declares. */
  lemma CheckedType(sc: Schema, s: State, w: LId, f: FieldDef, arg: Arg)
    requires Inv(sc, s) && s.pending.None? && MsgAt(s, w) && CheckField(s, w, f, arg).0
    ensures arg.Obj? && WrapperAt(s, arg.id) && At(s, s.lua[arg.id].body.ptr).ty == FieldType(MsgDef(s, w), f)
  {
    assert WrapperAt(s, arg.id) ==> TypedWrapper(s, arg.id);
    KeepPushSub(sc, s, w, f);
    CheckedElem(s, w, f, arg);
  }

  lemma CheckedElem(s: State, w: LId, f: FieldDef, arg: Arg)
    requires CheckField(s, w, f, arg).0
    requires WrapperAt(s, arg.id) ==> TypedWrapper(s, arg.id)
    requires var (t, e) := PushSubDef(s, w, f);
      && DefAt(t, e) && DefOf(t, e) == SubDef(MsgDef(s, w), f)
      && (forall i :: i in s.lua ==> i in t.lua && SameObj(s, t, i))
    ensures arg.Obj? && WrapperAt(s, arg.id) && At(s, s.lua[arg.id].body.ptr).ty == FieldType(MsgDef(s, w), f)
  {
  }

  lemma KeepMsgSetObject(sc: Schema, s: State, w: LId, name: string, f: FieldDef, arg: Arg)
    requires Inv(sc, s) && s.pending.None? && MsgAt(s, w)
    requires FindField(sc, MsgDef(s, w), name) == Some(f) && HoldsObject(f)
    requires arg.Obj? && WrapperAt(s, arg.id) && At(s, s.lua[arg.id].body.ptr).ty == FieldType(MsgDef(s, w), f)
    ensures Inv(sc, SetPtr(Fuse(s, Arena(s, w), Arena(s, arg.id)), s.lua[w].body.ptr, F(name), s.lua[arg.id].body.ptr))
  {
    var p, q := s.lua[w].body.ptr, s.lua[arg.id].body.ptr;
    WrapperFacts(sc, s, w);
    WrapperFacts(sc, s, arg.id);
    var t := Fuse(s, Arena(s, w), Arena(s, arg.id));
    assert Inv(sc, t) && EdgeInGroup(t, p, q) by { KeepObjectFuse(sc, s, w, arg.id); }
    FuseReleased(s, Arena(s, w), Arena(s, arg.id), s.upb[p].owner);
    InvWritePtr(sc, t, p, F(name), q, s.upb[p].len);
  }

  lemma KeepObjectFuse(sc: Schema, s: State, w: LId, v: LId)
    requires Inv(sc, s) && s.pending.None? && WrapperAt(s, w) && WrapperAt(s, v)
    ensures var t := Fuse(s, Arena(s, w), Arena(s, v));
      && Inv(sc, t) && s.lua[w].body.ptr in s.upb && EdgeInGroup(t, s.lua[w].body.ptr, s.lua[v].body.ptr)
  {
    WrapperFacts(sc, s, w);
    WrapperFacts(sc, s, v);
    var t := Fuse(s, Arena(s, w), Arena(s, v));
    KeepFuse(s, Arena(s, w), Arena(s, v));
    forall a ensures Released(t, a) == Released(s, a) { FuseReleased(s, Arena(s, w), Arena(s, v), a); }
    KeepTypesSame(sc, s, t);
    assert Together(t, Arena(s, w), s.upb[s.lua[w].body.ptr].owner);
    assert Together(t, Arena(s, v), s.upb[s.lua[v].body.ptr].owner);
  }

  lemma KeepMsgSetText(sc: Schema, s: State, w: LId, name: string, f: FieldDef, p: Ptr)
    requires Inv(sc, s) && MsgAt(s, w) && FreshPtr(s, p)
    requires FindField(sc, MsgDef(s, w), name) == Some(f) && !HoldsObject(f) && IsText(f.ct)
    ensures Inv(sc, SetPtr(WithText(s, w, p), s.lua[w].body.ptr, F(name), p))
  {
    var q := s.lua[w].body.ptr;
    WrapperFacts(sc, s, w);
    InvCopyText(sc, s, w, p);
    InvWritePtr(sc, WithText(s, w, p), q, F(name), p, s.upb[q].len);
  }

  lemma KeepMsgSet(sc: Schema, s: State, w: LId, name: string, arg: Arg, p: Ptr)
    requires Inv(sc, s) && s.pending.None? && w in s.roots && MsgAt(s, w) && Held(s, arg) && FreshPtr(s, p)
    ensures Inv(sc, MsgSet(sc, s, w, name, arg, p).s)
  {
    if FindField(sc, MsgDef(s, w), name).Some? {
      var f := FindField(sc, MsgDef(s, w), name).value;
      if HoldsObject(f) {
        KeepMsgSetField(sc, s, w, name, f, arg, p);
      } else if ToMsgVal(s, f.ct, w, arg, p).Some? && IsText(f.ct) {
        KeepMsgSetText(sc, s, w, name, f, p);
      }
    }
  }

  lemma KeepMsgSetField(sc: Schema, s: State, w: LId, name: string, f: FieldDef, arg: Arg, p: Ptr)
    requires Inv(sc, s) && s.pending.None? && MsgAt(s, w)
    requires FindField(sc, MsgDef(s, w), name) == Some(f) && HoldsObject(f)
    ensures Inv(sc, MsgSet(sc, s, w, name, arg, p).s)
  {
    var (ok, t) := CheckField(s, w, f, arg);
    WrapperFacts(sc, s, w);
    KeepCheckField(sc, s, w, f, arg);
    if ok {
      CheckedType(sc, s, w, f, arg);
      assert SameObj(s, t, w) && SameObj(s, t, arg.id) && SameObj(s, t, Uv(s, w, MSGDEF_INDEX));
      KeepMsgSetObject(sc, t, w, name, f, arg);
    }
  }

  // ----- Reads -----

  lemma KeepHit(sc: Schema, s: State, q: Ptr)
    requires Inv(sc, s) && s.pending.None? && q in s.cache
    ensures Inv(sc, Hit(s, q).s)
  {
    InvRoots(sc, s, s.roots + {s.cache[q]});
  }

  lemma InvNewWrapper(sc: Schema, s: State, body: Body, uv: map<int, LId>)
    requires Inv(sc, s) && s.pending.None? && WrapperFits(s, s.next, body, uv)
    ensures Inv(sc, AddWrapper(Bump(s, 1), s.next, body, uv))
  {
    assert Inv(sc, Bump(s, 1)) by { InvBump(sc, s, 1); }
    InvWrapper(sc, Bump(s, 1), s.next, body, uv);
  }

  lemma ElemFits(s: State, w: LId, q: Ptr)
    requires WrapperAt(s, w) && HoldsArena(s, w) && q !in s.cache && s.pending.None?
    requires q in s.upb && Together(s, Arena(s, w), s.upb[q].owner)
    requires SlotDef(s, w).Some? && s.upb[q].ty == TMsg(SlotDef(s, w).value)
    requires NoDangling(s)
    ensures var uv := Slots(Arena(s, w), Slot(s, w, MSGDEF_INDEX));
      WrapperFits(s, s.next, MsgB(q), uv) && ElemWrapper(s, w, q).s == AddWrapper(Bump(s, 1), s.next, MsgB(q), uv)
  {
  }

  /** A wrapper for an object of `w`'s group. */
  lemma KeepElemWrapper(sc: Schema, s: State, w: LId, q: Ptr)
    requires Inv(sc, s) && s.pending.None? && WrapperAt(s, w)
    requires q in s.upb && Together(s, Arena(s, w), s.upb[q].owner)
    requires SlotDef(s, w).Some? && s.upb[q].ty == TMsg(SlotDef(s, w).value)
    ensures Inv(sc, ElemWrapper(s, w, q).s)
  {
    if q in s.cache {
      KeepHit(sc, s, q);
    } else {
      assert HoldsArena(s, w);
      ElemFits(s, w, q);
      InvNewWrapper(sc, s, MsgB(q), Slots(Arena(s, w), Slot(s, w, MSGDEF_INDEX)));
    }
  }

  lemma KeepFieldWrapper(sc: Schema, s: State, w: LId, f: FieldDef, q: Ptr)
    requires Inv(sc, s) && s.pending.None? && MsgAt(s, w) && HoldsObject(f)
    requires q in s.upb && Together(s, Arena(s, w), s.upb[q].owner)
    requires s.upb[q].ty == FieldType(MsgDef(s, w), f)
    ensures Inv(sc, FieldWrapper(s, w, f, q).s)
  {
    if q in s.cache {
      KeepHit(sc, s, q);
    } else if f.ct.CMessage? {
      NewFieldWrapper(sc, s, w, f, q);
    } else {
      PlainFieldWrapper(sc, s, w, f, q);
    }
  }

  lemma PlainFieldWrapper(sc: Schema, s: State, w: LId, f: FieldDef, q: Ptr)
    requires Inv(sc, s) && s.pending.None? && MsgAt(s, w) && HoldsObject(f) && !f.ct.CMessage?
    requires q in s.upb && Together(s, Arena(s, w), s.upb[q].owner) && q !in s.cache
    requires s.upb[q].ty == FieldType(MsgDef(s, w), f)
    ensures Inv(sc, FieldWrapper(s, w, f, q).s)
  {
    assert HoldsArena(s, w);
    PlainFits(s, w, f, q);
    InvNewWrapper(sc, s, FieldBody(f, q), Slots(Arena(s, w), None));
  }

  lemma PlainFits(s: State, w: LId, f: FieldDef, q: Ptr)
    requires MsgAt(s, w) && HoldsArena(s, w) && HoldsObject(f) && !f.ct.CMessage?
    requires q in s.upb && Together(s, Arena(s, w), s.upb[q].owner) && q !in s.cache
    requires s.upb[q].ty == FieldType(MsgDef(s, w), f)
    ensures WrapperFits(s, s.next, FieldBody(f, q), Slots(Arena(s, w), None))
    ensures FieldWrapper(s, w, f, q).s == AddWrapper(Bump(s, 1), s.next, FieldBody(f, q), Slots(Arena(s, w), None))
  {
  }

  lemma NewFieldWrapper(sc: Schema, s: State, w: LId, f: FieldDef, q: Ptr)
    requires Inv(sc, s) && s.pending.None? && MsgAt(s, w) && f.ct.CMessage?
    requires q in s.upb && Together(s, Arena(s, w), s.upb[q].owner) && q !in s.cache
    requires s.upb[q].ty == FieldType(MsgDef(s, w), f)
    ensures Inv(sc, FieldWrapper(s, w, f, q).s)
  {
    var (t, e) := PushSubDef(Bump(s, 1), w, f);
    var uv := Slots(Arena(s, w), Some(e));
    assert Inv(sc, AddWrapper(t, s.next, FieldBody(f, q), uv)) by {
      PushAfterBump(sc, s, w, f);
      assert HoldsArena(s, w);
      FieldFits(s, t, w, f, q, e);
      InvWrapper(sc, t, s.next, FieldBody(f, q), uv);
    }
  }

  lemma PushAfterBump(sc: Schema, s: State, w: LId, f: FieldDef)
    requires Inv(sc, s) && s.pending.None? && MsgAt(s, w)
    ensures var (t, e) := PushSubDef(Bump(s, 1), w, f);
      && Inv(sc, t) && Pushed(Bump(s, 1), t) && DefAt(t, e) && DefOf(t, e) == SubDef(MsgDef(s, w), f)
      && FreshId(t, s.next)
  {
    assert Inv(sc, Bump(s, 1)) by { InvBump(sc, s, 1); }
    KeepPushSub(sc, Bump(s, 1), w, f);
  }

  lemma FieldFits(s: State, t: State, w: LId, f: FieldDef, q: Ptr, e: LId)
    requires MsgAt(s, w) && HoldsArena(s, w) && s.pending.None? && f.ct.CMessage?
    requires q in s.upb && Together(s, Arena(s, w), s.upb[q].owner) && q !in s.cache
    requires s.upb[q].ty == FieldType(MsgDef(s, w), f)
    requires Pushed(Bump(s, 1), t) && DefAt(t, e) && DefOf(t, e) == SubDef(MsgDef(s, w), f)
    ensures WrapperFits(t, s.next, FieldBody(f, q), Slots(Arena(s, w), Some(e)))
  {
    assert SameObj(Bump(s, 1), t, Arena(s, w));
  }

  lemma KeepArrGet(sc: Schema, s: State, w: LId, n: int)
    requires Inv(sc, s) && s.pending.None? && WrapperAt(s, w) && s.lua[w].body.ArrB?
    ensures Inv(sc, ArrGet(s, w, n).s)
  {
    WrapperFacts(sc, s, w);
    var p := s.lua[w].body.ptr;
    if 1 <= n <= s.upb[p].len && s.lua[w].body.ct.CMessage? && I(n - 1) in s.upb[p].edges {
      var q := s.upb[p].edges[I(n - 1)];
      assert EdgesOf(s, p) && EdgeInGroup(s, p, q) && TypedEdges(sc, s, p) && TypedEdge(sc, s, p, I(n - 1));
      KeepElemWrapper(sc, s, w, q);
    }
  }

  lemma KeepMapGet(sc: Schema, s: State, w: LId, key: Option<string>)
    requires Inv(sc, s) && s.pending.None? && WrapperAt(s, w) && s.lua[w].body.MapB?
    ensures Inv(sc, MapGet(s, w, key).s)
  {
    WrapperFacts(sc, s, w);
    var p := s.lua[w].body.ptr;
    if key.Some? && s.lua[w].body.ct.CMessage? && K(key.value) in s.upb[p].edges {
      var q := s.upb[p].edges[K(key.value)];
      assert EdgesOf(s, p) && EdgeInGroup(s, p, q) && TypedEdges(sc, s, p) && TypedEdge(sc, s, p, K(key.value));
      KeepElemWrapper(sc, s, w, q);
    }
  }

  /** An absent repeated or map field: made in the wrapper's arena and stored. */
  lemma KeepMutable(sc: Schema, s: State, w: LId, name: string, f: FieldDef, p: Ptr)
    requires Inv(sc, s) && s.pending.None? && MsgAt(s, w) && FreshPtr(s, p)
    requires FindField(sc, MsgDef(s, w), name) == Some(f) && HoldsObject(f) && !f.Single?
    ensures var o := Upb(Arena(s, w), FieldType(MsgDef(s, w), f), 0, map[]);
      var t := SetPtr(AddUpb(s, p, o), s.lua[w].body.ptr, F(name), p);
      Inv(sc, t) && p in t.upb && t.upb[p].ty == FieldType(MsgDef(s, w), f) && Together(t, Arena(t, w), t.upb[p].owner)
  {
    var m := s.lua[w].body.ptr;
    var u := AddUpb(s, p, Upb(Arena(s, w), FieldType(MsgDef(s, w), f), 0, map[]));
    WrapperFacts(sc, s, w);
    assert m != p by { FreshNotCached(s, p); }
    InvNewUpb(sc, s, p, Upb(Arena(s, w), FieldType(MsgDef(s, w), f), 0, map[]));
    InvWritePtr(sc, u, m, F(name), p, s.upb[m].len);
  }

  lemma KeepMsgGet(sc: Schema, s: State, w: LId, name: string, p: Ptr)
    requires Inv(sc, s) && s.pending.None? && w in s.roots && MsgAt(s, w) && FreshPtr(s, p)
    ensures Inv(sc, MsgGet(sc, s, w, name, p).s)
  {
    WrapperFacts(sc, s, w);
    var m := s.lua[w].body.ptr;
    if FindField(sc, MsgDef(s, w), name).Some? {
      var f := FindField(sc, MsgDef(s, w), name).value;
      if HoldsObject(f) {
        if F(name) in s.upb[m].edges {
          var q := s.upb[m].edges[F(name)];
          assert EdgesOf(s, m) && EdgeInGroup(s, m, q) && TypedEdges(sc, s, m) && TypedEdge(sc, s, m, F(name));
          KeepFieldWrapper(sc, s, w, f, q);
        } else if !f.Single? {
          KeepMsgGetAbsent(sc, s, w, name, f, p);
        }
      }
    }
  }

  lemma KeepMsgGetAbsent(sc: Schema, s: State, w: LId, name: string, f: FieldDef, p: Ptr)
    requires Inv(sc, s) && s.pending.None? && MsgAt(s, w) && FreshPtr(s, p)
    requires FindField(sc, MsgDef(s, w), name) == Some(f) && HoldsObject(f) && !f.Single?
    requires F(name) !in At(s, s.lua[w].body.ptr).edges
    ensures Inv(sc, MsgGet(sc, s, w, name, p).s)
  {
    KeepMutable(sc, s, w, name, f, p);
    var o := Upb(Arena(s, w), FieldType(MsgDef(s, w), f), 0, map[]);
    KeepFieldWrapper(sc, SetPtr(AddUpb(s, p, o), s.lua[w].body.ptr, F(name), p), w, f, p);
  }

  // ----- Decode -----

  lemma KeepDecode(sc: Schema, s: State, d: LId, p: Ptr, objs: map<Ptr, Upb>)
    requires Inv(sc, s) && s.pending.None? && d in s.roots && DefAt(s, d) && DecoderOk(sc, s, d, p, objs)
    ensures Inv(sc, Decode(s, d, p, objs).s)
  {
    var t, uv := Filled(s, objs), Slots(s.next + 1, Some(d));
    DecodeForm(s, d, p, objs);
    assert Inv(sc, AddWrapper(t, s.next, MsgB(p), uv)) by {
      assert WrapperFits(t, s.next, MsgB(p), uv) && FreshId(t, s.next) by {
        FreshNotCached(s, p);
        DecodedFits(sc, s, d, p, objs);
      }
      assert Inv(sc, t) by { KeepFilled(sc, s, objs); }
      InvWrapper(sc, t, s.next, MsgB(p), uv);
    }
  }

  lemma DecodeForm(s: State, d: LId, p: Ptr, objs: map<Ptr, Upb>)
    ensures Decode(s, d, p, objs).s == AddWrapper(Filled(s, objs), s.next, MsgB(p), Slots(s.next + 1, Some(d)))
  {
  }

  ghost function Filled(s: State, objs: map<Ptr, Upb>): State {
    AddArena(Bump(s, 2), s.next + 1).(upb := s.upb + objs)
  }

  lemma KeepFilled(sc: Schema, s: State, objs: map<Ptr, Upb>)
    requires Inv(sc, s) && s.pending.None?
    requires forall q :: q in objs ==> FreshPtr(s, q) && objs[q].owner == s.next + 1 && DecodedOk(sc, objs, q)
    ensures Inv(sc, Filled(s, objs))
  {
    forall q | q in objs ensures FreshPtr(AddArena(Bump(s, 2), s.next + 1), q) { StillFresh(sc, s, q); }
    assert Inv(sc, AddArena(Bump(s, 2), s.next + 1)) by { KeepFreshArena(sc, s); }
    KeepDecoded(sc, AddArena(Bump(s, 2), s.next + 1), s.next + 1, objs);
  }

  lemma DecodedFits(sc: Schema, s: State, d: LId, p: Ptr, objs: map<Ptr, Upb>)
    requires Identities(s) && s.pending.None? && DefAt(s, d) && DecoderOk(sc, s, d, p, objs) && p !in s.cache
    ensures var t := Filled(s, objs);
      WrapperFits(t, s.next, MsgB(p), Slots(s.next + 1, Some(d))) && FreshId(t, s.next)
  {
  }

  lemma KeepDecoded(sc: Schema, s: State, a: LId, objs: map<Ptr, Upb>)
    requires Inv(sc, s) && s.pending.None? && a in s.group
    requires forall q :: q in objs ==> FreshPtr(s, q) && objs[q].owner == a && DecodedOk(sc, objs, q)
    ensures Inv(sc, s.(upb := s.upb + objs))
  {
    var t := s.(upb := s.upb + objs);
    forall q | q in objs ensures q !in s.cache { FreshNotCached(s, q); }
    assert ArenasKept(s, t) by { SameArenas(s, t); }
    assert WrapperHoldsArena(t) by { DecodedWrappers(s, a, objs); }
    assert EdgesInGroup(t) by { DecodedEdges(sc, s, a, objs); }
    assert TypeInv(sc, t) by { DecodedTypes(sc, s, a, objs); }
  }

  lemma DecodedWrappers(s: State, a: LId, objs: map<Ptr, Upb>)
    requires MemInv(s) && s.pending.None? && a in s.group
    requires forall q :: q in objs ==> FreshPtr(s, q) && objs[q].owner == a
    ensures WrapperHoldsArena(s.(upb := s.upb + objs))
  {
    var t := s.(upb := s.upb + objs);
    SameArenas(s, t);
    FrameWrappers(s, t);
  }

  lemma DecodedEdges(sc: Schema, s: State, a: LId, objs: map<Ptr, Upb>)
    requires MemInv(s) && s.pending.None? && a in s.group
    requires forall q :: q in objs ==> FreshPtr(s, q) && objs[q].owner == a && DecodedOk(sc, objs, q)
    ensures EdgesInGroup(s.(upb := s.upb + objs))
  {
    var t := s.(upb := s.upb + objs);
    SameArenas(s, t);
    FrameEdges(s, t);
  }

  lemma DecodedTypes(sc: Schema, s: State, a: LId, objs: map<Ptr, Upb>)
    requires Inv(sc, s) && s.pending.None? && a in s.group
    requires forall q :: q in objs ==> FreshPtr(s, q) && objs[q].owner == a && DecodedOk(sc, objs, q)
    ensures TypeInv(sc, s.(upb := s.upb + objs))
  {
    var t := s.(upb := s.upb + objs);
    DefsSame(s, t);
    assert WrappersTyped(t) by {
      forall w | WrapperAt(s, w) ensures SameType(s, t, s.lua[w].body.ptr) {
        if s.lua[w].body.ptr in objs { FreshNotCached(s, s.lua[w].body.ptr); }
      }
      FrameTypedWrappers(s, t);
    }
    assert EdgesTyped(sc, t) by {
      forall p | p in objs ensures TypedEdges(sc, t, p) {
        assert DecodedOk(sc, objs, p);
        forall l | l in t.upb[p].edges ensures TypedEdge(sc, t, p, l) {}
      }
      FrameTypedEdges(sc, s, t);
    }
  }

  // ----- Every step, every run -----

  lemma KeepFinishWrite(sc: Schema, s: State)
    requires Inv(sc, s) && s.pending.Some?
    ensures Inv(sc, FinishWrite(s))
  {
    var (x, y) := s.pending.value;
    KeepFinish(s);
    assert HeldWrapper(s, x) && HeldWrapper(s, y);
    forall a ensures Released(FinishWrite(s), a) == Released(s, a) {
      FuseReleased(s, Arena(s, x), Arena(s, y), a);
      assert Released(FinishWrite(s), a) == Released(Fuse(s, Arena(s, x), Arena(s, y)), a);
    }
    KeepTypesSame(sc, s, FinishWrite(s));
  }

  lemma KeepPushDef(sc: Schema, s: State, x: LId, key: DefKey)
    requires Inv(sc, s) && s.pending.None? && KeyOfPool(s, PoolOf(s, x), key)
    ensures Inv(sc, PushDef(s, x, key).s)
  {
    var (t, id) := PushWrapper(s, PoolOf(s, x), key);
    assert Inv(sc, t) && id in t.lua && t.pending.None? by {
      KeepTypesPush(sc, s, PoolOf(s, x), key);
      PushWrapperKeeps(s, PoolOf(s, x), key);
    }
    InvRoots(sc, t, t.roots + {id});
  }

  lemma KeepNewArray(sc: Schema, s: State, a: TypeArg, p: Ptr)
    requires Inv(sc, s) && s.pending.None? && TypeArgOk(s, a) && FreshPtr(s, p)
    ensures Inv(sc, NewArray(s, a, p).s)
  {
    match a
    case ByNumber(ct) => KeepNewObject(sc, s, p, TArr(ct, None), ArrB(p, ct), map[]);
    case ByDef(d) =>
      KeepNewObject(sc, s, p, TArr(CMessage, Some(DefOf(s, d))), ArrB(p, CMessage), map[MSGDEF_INDEX := d]);
  }

  lemma KeepNewMap(sc: Schema, s: State, kct: CType, a: TypeArg, p: Ptr)
    requires Inv(sc, s) && s.pending.None? && TypeArgOk(s, a) && FreshPtr(s, p)
    ensures Inv(sc, NewMap(s, kct, a, p).s)
  {
    match a
    case ByNumber(ct) => KeepNewObject(sc, s, p, TMap(kct, ct, None), MapB(p, kct, ct), map[]);
    case ByDef(d) =>
      KeepNewObject(sc, s, p, TMap(kct, CMessage, None), MapB(p, kct, CMessage), map[MAP_MSGDEF_INDEX := d]);
  }

  predicate IsCreation(e: Event) {
    e.ENewPool? || e.ENewMessage? || e.ENewArray? || e.ENewMap? || e.EDecode? || e.EScratch?
  }

  predicate IsWrite(e: Event) {
    e.EMsgSet? || e.EArrWrite? || e.EMapWrite? || e.EFinishWrite?
  }

  predicate IsRead(e: Event) {
    e.EMsgGet? || e.EArrGet? || e.EMapGet? || e.EPushDef?
  }

  lemma CreationKeeps(sc: Schema, s: State, e: Event)
    requires Inv(sc, s) && Enabled(sc, s, e) && IsCreation(e)
    ensures Inv(sc, After(sc, s, e))
  {
    match e
    case ENewPool(q) => KeepNewPool(sc, s, q);
    case ENewMessage(d, p) => KeepNewObject(sc, s, p, TMsg(DefOf(s, d)), MsgB(p), map[MSGDEF_INDEX := d]);
    case ENewArray(a, p) => KeepNewArray(sc, s, a, p);
    case ENewMap(kct, a, p) => KeepNewMap(sc, s, kct, a, p);
    case EDecode(d, p, objs) => KeepDecode(sc, s, d, p, objs);
    case EScratch => InvBump(sc, s, 1); InvAddArena(sc, Bump(s, 1), s.next);
  }

  lemma WriteKeeps(sc: Schema, s: State, e: Event)
    requires Inv(sc, s) && Enabled(sc, s, e) && IsWrite(e)
    ensures Inv(sc, After(sc, s, e))
  {
    match e
    case EMsgSet(w, name, arg, p) => KeepMsgSet(sc, s, w, name, arg, p);
    case EArrWrite(w, n, arg, p) => KeepArrWrite(sc, s, w, n, arg, p);
    case EMapWrite(w, key, arg, p) => KeepMapWrite(sc, s, w, key, arg, p);
    case EFinishWrite => KeepFinishWrite(sc, s);
  }

  lemma ReadKeeps(sc: Schema, s: State, e: Event)
    requires Inv(sc, s) && Enabled(sc, s, e) && IsRead(e)
    ensures Inv(sc, After(sc, s, e))
  {
    match e
    case EMsgGet(w, name, p) => KeepMsgGet(sc, s, w, name, p);
    case EArrGet(w, n) => KeepArrGet(sc, s, w, n);
    case EMapGet(w, key) => KeepMapGet(sc, s, w, key);
    case EPushDef(x, key) => KeepPushDef(sc, s, x, key);
  }

  /** Every step the runtime can take keeps the invariant. */
  lemma StepKeeps(sc: Schema, s: State, e: Event)
    requires Inv(sc, s) && Enabled(sc, s, e)
    ensures Inv(sc, After(sc, s, e))
  {
    if IsCreation(e) {
      CreationKeeps(sc, s, e);
    } else if IsWrite(e) {
      WriteKeeps(sc, s, e);
    } else if IsRead(e) {
      ReadKeeps(sc, s, e);
    } else if e.EDrop? {
      InvRoots(sc, s, s.roots - {e.o});
    } else {
      KeepCollect(s, e.dead);
      KeepTypesCollect(sc, s, e.dead);
    }
  }

  /** A run from the freshly loaded library. */
  ghost predicate IsRun(sc: Schema, states: seq<State>, events: seq<Event>) {
    && |states| == |events| + 1 && states[0] == INITIAL
    && forall i :: 0 <= i < |events| ==> IsStep(sc, states, events, i)
  }

  ghost predicate IsStep(sc: Schema, states: seq<State>, events: seq<Event>, i: nat)
    requires i < |events| && |states| == |events| + 1
  {
    Enabled(sc, states[i], events[i]) && states[i + 1] == After(sc, states[i], events[i])
  }

  lemma {:induction false} RunKeeps(sc: Schema, states: seq<State>, events: seq<Event>, i: nat)
    requires IsRun(sc, states, events) && i < |states|
    ensures Inv(sc, states[i])
  {
    if i > 0 {
      RunKeeps(sc, states, events, i - 1);
      assert IsStep(sc, states, events, i - 1);
      StepKeeps(sc, states[i - 1], events[i - 1]);
    }
  }
}
