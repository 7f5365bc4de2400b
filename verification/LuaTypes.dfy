/** Type agreement and definition pools: every wrapper's definition slot
    names the real type of its object, every pointer respects the declared
    type, each pool has one owner, and each definition one live wrapper. */
module LuaTypes {
  import opened Common
  import opened LuaState
  import opened LuaSteps
  import opened LuaMemory

  // ----- Definition wrappers and pools -----

  /** A definition wrapper holds the owner of its pool, whose cache names it. */
  ghost predicate DefOk(s: State, d: LId)
    requires DefAt(s, d)
  {
    && SYMTAB_INDEX in s.lua[d].uv && PoolAt(s, s.lua[d].uv[SYMTAB_INDEX])
    && var pool := s.lua[s.lua[d].uv[SYMTAB_INDEX]].body;
    && pool.pool == s.lua[d].body.def.pool
    && KDef(s.lua[d].body.def) in pool.defs && pool.defs[KDef(s.lua[d].body.def)] == d
  }

  ghost predicate EntryOk(s: State, pool: LId, k: DefKey)
    requires PoolAt(s, pool) && k in s.lua[pool].body.defs
  {
    var o := s.lua[pool].body.defs[k];
    match k
    case KDef(def) => DefAt(s, o) && s.lua[o].body.def == def && Slot(s, o, SYMTAB_INDEX) == Some(pool)
    case KPool(q) => o == pool && q == s.lua[pool].body.pool
  }

  /** A pool is in its own cache, and it has not been freed. */
  ghost predicate PoolOk(s: State, pool: LId)
    requires PoolAt(s, pool)
  {
    var b := s.lua[pool].body;
    && KPool(b.pool) in b.defs && b.pool in s.frees && s.frees[b.pool] == 0
    && forall k :: k in b.defs ==> EntryOk(s, pool, k)
  }

  ghost predicate Owns(s: State, i: LId, q: int) {
    PoolAt(s, i) && s.lua[i].body.pool == q
  }

  ghost predicate OneOwner(s: State) {
    forall i, j, q :: Owns(s, i, q) && Owns(s, j, q) ==> i == j
  }

  ghost predicate HasOwner(s: State, q: int) {
    exists i :: Owns(s, i, q)
  }

  /** A pool without a live owner has been freed exactly once. */
  ghost predicate FreedOnce(s: State) {
    forall q :: q in s.frees && !HasOwner(s, q) ==> s.frees[q] == 1
  }

  ghost predicate DefInv(s: State) {
    && (forall d :: DefAt(s, d) ==> DefOk(s, d))
    && (forall i :: PoolAt(s, i) ==> PoolOk(s, i))
    && OneOwner(s) && FreedOnce(s)
  }

  // ----- Wrappers and edges -----

  ghost function SlotDef(s: State, w: LId): Option<DefId> {
    if w in s.lua && MSGDEF_INDEX in s.lua[w].uv && DefAt(s, s.lua[w].uv[MSGDEF_INDEX])
    then Some(s.lua[s.lua[w].uv[MSGDEF_INDEX]].body.def) else None
  }

  ghost predicate TypedWrapper(s: State, w: LId)
    requires WrapperAt(s, w)
  {
    && (MSGDEF_INDEX in s.lua[w].uv ==> DefAt(s, s.lua[w].uv[MSGDEF_INDEX]))
    && s.lua[w].body.ptr in s.upb
    && BodyType(s.lua[w].body, SlotDef(s, w), s.upb[s.lua[w].body.ptr].ty)
  }

  ghost predicate BodyType(b: Body, d: Option<DefId>, ty: UType)
    requires IsWrapper(b)
  {
    match b
    case MsgB(_) => d.Some? && ty == TMsg(d.value)
    case ArrB(_, ct) => ty == TArr(ct, d) && (!ct.CMessage? ==> d.None?)
    case MapB(_, kct, ct) => ty == TMap(kct, ct, d) && (!ct.CMessage? ==> d.None?)
  }

  /** What a pointer under label `l` of an object of type `t` may point to. */
  ghost predicate EdgeType(sc: Schema, t: UType, l: Label, u: UType) {
    match t
    case TMsg(d) =>
      && l.F? && FindField(sc, d, l.name).Some?
      && var f := FindField(sc, d, l.name).value;
      if HoldsObject(f) then u == FieldType(d, f) else IsText(f.ct) && u == TStr
    case TArr(ct, elem) => l.I? && ElemType(ct, elem, u)
    case TMap(_, ct, elem) => l.K? && ElemType(ct, elem, u)
    case TStr => false
  }

  ghost predicate ElemType(ct: CType, elem: Option<DefId>, u: UType) {
    if ct.CMessage? then elem.Some? && u == TMsg(elem.value) else IsText(ct) && u == TStr
  }

  ghost predicate TypedEdges(sc: Schema, s: State, p: Ptr)
    requires p in s.upb
  {
    && (forall l :: l in s.upb[p].edges ==> TypedEdge(sc, s, p, l))
    && (s.upb[p].ty.TArr? ==> FilledSlots(s.upb[p]))
  }

  ghost predicate TypedEdge(sc: Schema, s: State, p: Ptr, l: Label)
    requires p in s.upb && l in s.upb[p].edges
  {
    s.upb[p].edges[l] in s.upb && EdgeType(sc, s.upb[p].ty, l, s.upb[s.upb[p].edges[l]].ty)
  }

  /** An array of strings or messages holds a pointer at every index below its length, and no other. */
  ghost predicate FilledSlots(o: Upb)
    requires o.ty.TArr?
  {
    && (forall l :: l in o.edges ==> l.I? && l.index < o.len)
    && (o.ty.ct.CMessage? || IsText(o.ty.ct) ==> forall i: nat :: i < o.len ==> HasSlot(o, i))
  }

  ghost predicate HasSlot(o: Upb, i: nat) {
    I(i) in o.edges
  }

  ghost predicate WrappersTyped(s: State) {
    forall w :: WrapperAt(s, w) ==> TypedWrapper(s, w)
  }

  ghost predicate EdgesTyped(sc: Schema, s: State) {
    forall p :: p in s.upb && !Released(s, s.upb[p].owner) ==> TypedEdges(sc, s, p)
  }

  ghost predicate TypeInv(sc: Schema, s: State) {
    DefInv(s) && WrappersTyped(s) && EdgesTyped(sc, s)
  }

  ghost predicate Inv(sc: Schema, s: State) {
    MemInv(s) && TypeInv(sc, s)
  }

  /** Identity of definition wrappers decides equality of definitions. */
  lemma RawEqualDecides(s: State, c: LId, d: LId)
    requires DefInv(s) && DefAt(s, c) && DefAt(s, d)
    ensures c == d <==> s.lua[c].body.def == s.lua[d].body.def
  {
    assert DefOk(s, c) && DefOk(s, d);
    if DefOf(s, c) == DefOf(s, d) {
      assert Owns(s, Uv(s, c, SYMTAB_INDEX), DefOf(s, c).pool) && Owns(s, Uv(s, d, SYMTAB_INDEX), DefOf(s, c).pool);
    }
  }

  // ----- The building blocks keep definitions -----

  lemma OwnersKept(s: State, t: State)
    requires OneOwner(s)
    requires forall i :: PoolAt(t, i) ==> PoolAt(s, i) && t.lua[i].body.pool == s.lua[i].body.pool
    ensures OneOwner(t)
  {
    forall i, j, q | Owns(t, i, q) && Owns(t, j, q) ensures i == j {
      assert Owns(s, i, q) && Owns(s, j, q);
    }
  }

  lemma DefsSame(s: State, t: State)
    requires DefInv(s) && t.lua == s.lua && t.frees == s.frees
    ensures DefInv(t)
  {
    OwnersKept(s, t);
    forall d | DefAt(t, d) ensures DefOk(t, d) { assert DefOk(s, d); }
    forall i | PoolAt(t, i) ensures PoolOk(t, i) {
      assert PoolOk(s, i);
      forall k | k in t.lua[i].body.defs ensures EntryOk(t, i, k) { assert EntryOk(s, i, k); }
    }
    forall q: int | q in t.frees && !HasOwner(t, q) ensures t.frees[q] == 1 {
      assert !HasOwner(s, q) by {
        if HasOwner(s, q) { var i: LId :| Owns(s, i, q); assert Owns(t, i, q); }
      }
    }
  }

  /** An arena or wrapper more. */
  lemma DefsExtended(s: State, t: State, id: LId)
    requires DefInv(s) && id !in s.lua && t.frees == s.frees
    requires exists o :: t.lua == s.lua[id := o] && !o.body.DefB? && !o.body.PoolB?
    ensures DefInv(t)
  {
    OwnersKept(s, t);
    forall d | DefAt(t, d) ensures DefOk(t, d) { assert DefAt(s, d) && DefOk(s, d); }
    forall i | PoolAt(t, i) ensures PoolOk(t, i) {
      assert PoolAt(s, i) && PoolOk(s, i);
      forall k | k in t.lua[i].body.defs ensures EntryOk(t, i, k) { assert EntryOk(s, i, k); }
    }
    forall q: int | q in t.frees && !HasOwner(t, q) ensures t.frees[q] == 1 {
      assert !HasOwner(s, q) by {
        if HasOwner(s, q) { var i: LId :| Owns(s, i, q); assert Owns(t, i, q); }
      }
    }
  }

  /** At most one definition wrapper more; everything else is as before. */
  ghost predicate Pushed(s: State, t: State) {
    && t.upb == s.upb && t.cache == s.cache && t.group == s.group && t.pending == s.pending
    && t.roots == s.roots && s.next <= t.next
    && (forall i :: i in s.lua ==> i in t.lua && SameObj(s, t, i))
    && (forall i :: i in t.lua && i !in s.lua ==> i == s.next && t.lua[i].body.DefB?)
  }

  /** Pushing a definition finds its one live wrapper or makes it. Pushing
      the pool always finds the owner, so no second finalisable owner is made. */
  lemma PushWrapperKeeps(s: State, pool: LId, key: DefKey)
    requires MemInv(s) && DefInv(s) && PoolAt(s, pool) && s.pending.None?
    requires key == KPool(s.lua[pool].body.pool) || (key.KDef? && key.def.pool == s.lua[pool].body.pool)
    ensures var (t, id) := PushWrapper(s, pool, key);
      && MemInv(t) && DefInv(t)
      && (key.KPool? ==> id == pool && t == s)
      && (key.KDef? ==> DefAt(t, id) && t.lua[id].body.def == key.def)
      && Pushed(s, t)
  {
    var (t, id) := PushWrapper(s, pool, key);
    assert PoolOk(s, pool);
    if key in s.lua[pool].body.defs {
      assert EntryOk(s, pool, key);
    } else {
      PushedDefs(s, pool, key.def);
      PushedMem(s, pool, key.def);
    }
  }

  lemma PushedMem(s: State, pool: LId, def: DefId)
    requires MemInv(s) && PoolAt(s, pool) && s.pending.None? && KDef(def) !in s.lua[pool].body.defs
    ensures MemInv(PushWrapper(s, pool, KDef(def)).0)
  {
    var (t, id) := PushWrapper(s, pool, KDef(def));
    KeepBump(s, 1);
    KeepPlain(Bump(s, 1), t, id);
  }

  lemma PushedDefs(s: State, pool: LId, def: DefId)
    requires DefInv(s) && PoolAt(s, pool) && def.pool == s.lua[pool].body.pool
    requires KDef(def) !in s.lua[pool].body.defs && s.next !in s.lua
    ensures DefInv(PushWrapper(s, pool, KDef(def)).0)
  {
    var (t, id) := PushWrapper(s, pool, KDef(def));
    assert forall i :: PoolAt(t, i) <==> PoolAt(s, i);
    assert forall i :: PoolAt(t, i) ==> t.lua[i].body.pool == s.lua[i].body.pool;
    OwnersKept(s, t);
    forall d | DefAt(t, d) ensures DefOk(t, d) { PushedDef(s, pool, def, d); }
    forall i | PoolAt(t, i) ensures PoolOk(t, i) { PushedPool(s, pool, def, i); }
    forall q: int | q in t.frees && !HasOwner(t, q) ensures t.frees[q] == 1 {
      if HasOwner(s, q) { var i: LId :| Owns(s, i, q); assert Owns(t, i, q); }
    }
  }

  lemma PushedDef(s: State, pool: LId, def: DefId, d: LId)
    requires DefInv(s) && PoolAt(s, pool) && def.pool == s.lua[pool].body.pool
    requires KDef(def) !in s.lua[pool].body.defs && s.next !in s.lua
    requires DefAt(PushWrapper(s, pool, KDef(def)).0, d)
    ensures DefOk(PushWrapper(s, pool, KDef(def)).0, d)
  {
    if d != s.next { assert DefAt(s, d) && DefOk(s, d); }
  }

  lemma PushedPool(s: State, pool: LId, def: DefId, i: LId)
    requires DefInv(s) && PoolAt(s, pool) && def.pool == s.lua[pool].body.pool
    requires KDef(def) !in s.lua[pool].body.defs && s.next !in s.lua
    requires PoolAt(PushWrapper(s, pool, KDef(def)).0, i)
    ensures PoolOk(PushWrapper(s, pool, KDef(def)).0, i)
  {
    var (t, id) := PushWrapper(s, pool, KDef(def));
    assert PoolAt(s, i) && PoolOk(s, i);
    forall k | k in t.lua[i].body.defs ensures EntryOk(t, i, k) {
      if i != pool || k != KDef(def) { assert EntryOk(s, i, k); }
    }
  }

  lemma NewPoolDefs(s: State, q: int)
    requires DefInv(s) && q !in s.frees && s.next !in s.lua
    ensures DefInv(NewPool(s, q).s)
  {
    var t, id := NewPool(s, q).s, s.next;
    forall d | DefAt(t, d) ensures DefOk(t, d) { assert DefAt(s, d) && DefOk(s, d); }
    forall i | PoolAt(t, i) ensures PoolOk(t, i) && (i != id ==> t.lua[i].body.pool != q) {
      if i != id { OldPoolKept(s, q, i); }
    }
    forall i, j, r | Owns(t, i, r) && Owns(t, j, r) ensures i == j {
      if i != id && j != id { assert Owns(s, i, r) && Owns(s, j, r); }
    }
    forall r: int | r in t.frees && !HasOwner(t, r) ensures t.frees[r] == 1 {
      assert r != q by { assert Owns(t, id, q); }
      if HasOwner(s, r) { var i: LId :| Owns(s, i, r); assert Owns(t, i, r); }
    }
  }

  lemma OldPoolKept(s: State, q: int, i: LId)
    requires DefInv(s) && q !in s.frees && s.next !in s.lua && PoolAt(s, i)
    ensures PoolOk(NewPool(s, q).s, i) && s.lua[i].body.pool != q
  {
    assert PoolOk(s, i);
    var t := NewPool(s, q).s;
    forall k | k in t.lua[i].body.defs ensures EntryOk(t, i, k) { assert EntryOk(s, i, k); }
  }

  /** Collecting frees the pool of a collected owner, once, and leaves every other pool alone. */
  lemma CollectDefs(s: State, dead: set<LId>)
    requires DefInv(s) && Garbage(s, dead)
    ensures DefInv(Collect(s, dead))
  {
    var t := Collect(s, dead);
    OwnersKept(s, t);
    forall d | DefAt(t, d) ensures DefOk(t, d) { assert DefAt(s, d) && DefOk(s, d); }
    forall i | PoolAt(t, i) ensures PoolOk(t, i) { CollectedPool(s, dead, i); }
    forall q: int | q in t.frees && !HasOwner(t, q) ensures t.frees[q] == 1 { FreedByCollect(s, dead, q); }
  }

  lemma CollectedPool(s: State, dead: set<LId>, i: LId)
    requires DefInv(s) && Garbage(s, dead) && PoolAt(Collect(s, dead), i)
    ensures PoolOk(Collect(s, dead), i)
  {
    var t := Collect(s, dead);
    assert PoolAt(s, i) && PoolOk(s, i);
    forall j | j in DeadOwners(s, dead, s.lua[i].body.pool) ensures false {
      assert Owns(s, i, s.lua[i].body.pool) && Owns(s, j, s.lua[i].body.pool);
    }
    forall k | k in t.lua[i].body.defs ensures EntryOk(t, i, k) { assert EntryOk(s, i, k); }
    assert EntryOk(s, i, KPool(s.lua[i].body.pool));
  }

  lemma FreedByCollect(s: State, dead: set<LId>, q: int)
    requires DefInv(s) && Garbage(s, dead) && q in s.frees && !HasOwner(Collect(s, dead), q)
    ensures Collect(s, dead).frees[q] == 1
  {
    if HasOwner(s, q) {
      var i: LId :| Owns(s, i, q);
      assert i in dead by { if i !in dead { assert Owns(Collect(s, dead), i, q); } }
      assert PoolOk(s, i);
      forall j | j in DeadOwners(s, dead, q) ensures j == i { assert Owns(s, j, q); }
      assert DeadOwners(s, dead, q) == {i};
    } else {
      forall j | j in DeadOwners(s, dead, q) ensures false { assert Owns(s, j, q); }
      assert DeadOwners(s, dead, q) == {};
    }
  }

  // ----- The building blocks keep types -----

  /** Wrappers whose slots, and objects whose types, have not changed stay typed. */
  lemma FrameTypedWrappers(s: State, t: State)
    requires WrappersTyped(s)
    requires forall i :: i in s.lua && i in t.lua ==> SameObj(s, t, i)
    requires forall w, k :: WrapperAt(t, w) && w in s.lua && k in s.lua[w].uv ==> s.lua[w].uv[k] in t.lua
    requires forall w :: WrapperAt(s, w) && w in t.lua ==> SameType(s, t, s.lua[w].body.ptr)
    requires forall w :: WrapperAt(t, w) && w !in s.lua ==> TypedWrapper(t, w)
    ensures WrappersTyped(t)
  {
    forall w | WrapperAt(t, w) ensures TypedWrapper(t, w) {
      if w in s.lua {
        assert SameObj(s, t, w);
        StillTyped(s, t, w);
      }
    }
  }

  ghost predicate SameType(s: State, t: State, p: Ptr) {
    p in s.upb ==> p in t.upb && t.upb[p].ty == s.upb[p].ty
  }

  lemma StillTyped(s: State, t: State, w: LId)
    requires WrapperAt(s, w) && TypedWrapper(s, w) && w in t.lua && SameObj(s, t, w)
    requires MSGDEF_INDEX in s.lua[w].uv ==>
      s.lua[w].uv[MSGDEF_INDEX] in t.lua && SameObj(s, t, s.lua[w].uv[MSGDEF_INDEX])
    requires SameType(s, t, s.lua[w].body.ptr)
    ensures WrapperAt(t, w) && TypedWrapper(t, w)
  {
    assert SlotDef(t, w) == SlotDef(s, w);
  }

  lemma FrameTypedEdges(sc: Schema, s: State, t: State)
    requires MemInv(s) && EdgesTyped(sc, s)
    requires forall a :: a in s.group && Released(s, a) ==> Released(t, a)
    requires forall p :: p in t.upb && !Released(t, t.upb[p].owner) ==> (p in s.upb && t.upb[p] == s.upb[p]) || TypedEdges(sc, t, p)
    requires forall p :: p in s.upb && !Released(s, s.upb[p].owner) ==> p in t.upb && t.upb[p].ty == s.upb[p].ty
    ensures EdgesTyped(sc, t)
  {
    forall p | p in t.upb && !Released(t, t.upb[p].owner) ensures TypedEdges(sc, t, p) {
      if p in s.upb && t.upb[p] == s.upb[p] {
        assert TypedEdges(sc, s, p) && EdgesOf(s, p);
        forall l | l in t.upb[p].edges ensures TypedEdge(sc, t, p, l) {
          assert TypedEdge(sc, s, p, l) && EdgeInGroup(s, p, s.upb[p].edges[l]);
          TogetherReleased(s, s.upb[p].owner, s.upb[s.upb[p].edges[l]].owner);
        }
      }
    }
  }

  /** A step that leaves Lua objects, upb objects and pools alone. */
  lemma KeepTypesSame(sc: Schema, s: State, t: State)
    requires MemInv(s) && TypeInv(sc, s) && t.lua == s.lua && t.upb == s.upb && t.frees == s.frees
    requires forall a :: a in s.group && Released(s, a) ==> Released(t, a)
    ensures TypeInv(sc, t)
  {
    DefsSame(s, t);
    assert WrappersTyped(t) by { FrameTypedWrappers(s, t); }
    assert EdgesTyped(sc, t) by { FrameTypedEdges(sc, s, t); }
  }

  lemma KeepTypesArena(sc: Schema, s: State, a: LId)
    requires Inv(sc, s) && FreshId(s, a) && s.pending.None?
    ensures TypeInv(sc, AddArena(s, a))
  {
    var t := AddArena(s, a);
    DefsExtended(s, t, a);
    assert WrappersTyped(t) by { FrameTypedWrappers(s, t); }
    assert EdgesTyped(sc, t) by { KeepArena(s, a); ArenaStillReleased(s, t); FrameTypedEdges(sc, s, t); }
  }

  lemma ArenaStillReleased(s: State, t: State)
    requires ArenasKept(s, t)
    ensures forall a :: a in s.group && Released(s, a) ==> Released(t, a)
  {
    forall a | a in s.group && Released(s, a) ensures Released(t, a) { assert ArenaKept(s, t, a); }
  }

  /** An object at a fresh address, without pointers. */
  lemma KeepTypesNewUpb(sc: Schema, s: State, p: Ptr, o: Upb)
    requires Inv(sc, s) && FreshPtr(s, p) && o.edges == map[] && (o.ty.TArr? ==> o.len == 0)
    ensures TypeInv(sc, AddUpb(s, p, o))
  {
    var t := AddUpb(s, p, o);
    FreshNotCached(s, p);
    DefsSame(s, t);
    assert WrappersTyped(t) by { FrameTypedWrappers(s, t); }
    assert EdgesTyped(sc, t) by { FrameTypedEdges(sc, s, t); }
  }

  /** An object rewritten in place with well-typed pointers. */
  lemma KeepTypesRewrite(sc: Schema, s: State, p: Ptr, o: Upb)
    requires Inv(sc, s) && p in s.upb && o.owner == s.upb[p].owner && o.ty == s.upb[p].ty
    requires TypedEdges(sc, AddUpb(s, p, o), p)
    ensures TypeInv(sc, AddUpb(s, p, o))
  {
    var t := AddUpb(s, p, o);
    DefsSame(s, t);
    assert WrappersTyped(t) by { FrameTypedWrappers(s, t); }
    assert EdgesTyped(sc, t) by { FrameTypedEdges(sc, s, t); }
  }

  lemma WrapperReleasesSame(s: State, w: LId, body: Body, uv: map<int, LId>)
    requires w !in s.group && IsWrapper(body)
    ensures forall a :: Released(s, a) ==> Released(AddWrapper(s, w, body, uv), a)
  {
  }

  lemma KeepTypesWrapper(sc: Schema, s: State, w: LId, body: Body, uv: map<int, LId>)
    requires Inv(sc, s) && FreshId(s, w) && IsWrapper(body)
    requires forall k :: k in uv ==> uv[k] in s.lua
    requires TypedWrapper(AddWrapper(s, w, body, uv), w)
    ensures TypeInv(sc, AddWrapper(s, w, body, uv))
  {
    var t := AddWrapper(s, w, body, uv);
    DefsExtended(s, t, w);
    assert WrappersTyped(t) by { FrameTypedWrappers(s, t); }
    assert EdgesTyped(sc, t) by {
      WrapperReleasesSame(s, w, body, uv);
      FrameTypedEdges(sc, s, t);
    }
  }

  lemma KeepTypesPush(sc: Schema, s: State, pool: LId, key: DefKey)
    requires Inv(sc, s) && PoolAt(s, pool) && s.pending.None?
    requires key == KPool(s.lua[pool].body.pool) || (key.KDef? && key.def.pool == s.lua[pool].body.pool)
    ensures Inv(sc, PushWrapper(s, pool, key).0)
  {
    var (t, id) := PushWrapper(s, pool, key);
    PushWrapperKeeps(s, pool, key);
    assert WrappersTyped(t) by { FrameTypedWrappers(s, t); }
    assert EdgesTyped(sc, t) by { PushReleasesSame(s, pool, key); FrameTypedEdges(sc, s, t); }
  }

  lemma PushReleasesSame(s: State, pool: LId, key: DefKey)
    requires PoolAt(s, pool) && Identities(s)
    ensures forall a :: Released(s, a) ==> Released(PushWrapper(s, pool, key).0, a)
  {
  }

  lemma KeepNewPool(sc: Schema, s: State, q: int)
    requires Inv(sc, s) && s.pending.None? && q !in s.frees
    ensures Inv(sc, NewPool(s, q).s)
  {
    var t, id := NewPool(s, q).s, s.next;
    NewPoolDefs(s, q);
    KeepBump(s, 1);
    KeepPlain(Bump(s, 1), t, id);
    assert WrappersTyped(t) by { FrameTypedWrappers(s, t); }
    assert EdgesTyped(sc, t) by {
      assert forall a :: a in s.group && Released(s, a) ==> Released(t, a);
      FrameTypedEdges(sc, s, t);
    }
  }

  lemma KeepTypesCollect(sc: Schema, s: State, dead: set<LId>)
    requires Inv(sc, s) && Garbage(s, dead)
    ensures TypeInv(sc, Collect(s, dead))
  {
    var t := Collect(s, dead);
    CollectDefs(s, dead);
    assert WrappersTyped(t) by { FrameTypedWrappers(s, t); }
    assert EdgesTyped(sc, t) by {
      CollectKeepsArenas(s, dead);
      ArenaStillReleased(s, t);
      FrameTypedEdges(sc, s, t);
    }
  }
}
