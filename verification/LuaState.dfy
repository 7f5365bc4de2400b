/** The state of the Lua binding (src/lua/msg.c, src/lua/def.c): Lua userdata
    with their uservalue slots, the weak object cache, the upb objects and the
    arenas that own them, and the definition pools. */
module LuaState {
  import opened Common

  /** Identity of a Lua object. Identities are never reused. */
  type LId = int

  /** Address of a upb object or of a copied string. An address may be reused
      once the memory that held it has been released. */
  type Ptr = int

  datatype CType =
    | CBool | CFloat | CInt32 | CUInt32 | CEnum | CMessage
    | CDouble | CInt64 | CUInt64 | CString | CBytes

  predicate IsText(ct: CType) {
    ct.CString? || ct.CBytes?
  }

  /** A message definition. Every definition a definition refers to belongs to
      the same pool, so a field names its submessage within that pool. */
  datatype DefId = DefId(pool: int, name: int)

  datatype FieldDef =
    | Single(ct: CType, sub: int)
    | Repeated(ct: CType, sub: int)
    | MapField(kct: CType, ct: CType, sub: int)

  /** The loaded definitions: the fields of each message by name. */
  type Schema = map<DefId, map<string, FieldDef>>

  function SubDef(d: DefId, f: FieldDef): DefId {
    DefId(d.pool, f.sub)
  }

  /** The static type of a upb object. `elem` is the message definition the
      elements of an array or the values of a map are declared with. */
  datatype UType =
    | TMsg(def: DefId)
    | TArr(ct: CType, elem: Option<DefId>)
    | TMap(kct: CType, ct: CType, elem: Option<DefId>)
    | TStr

  /** Where an object keeps a pointer: a message field, an array slot, or a
      map entry. */
  datatype Label = F(name: string) | I(index: nat) | K(key: string)

  /** A upb object: the arena it was allocated in, its type, its length (for
      arrays) and the pointers it holds. */
  datatype Upb = Upb(owner: LId, ty: UType, len: nat, edges: map<Label, Ptr>)

  /** The keys of a pool's definition cache: definitions and the pool itself. */
  datatype DefKey = KDef(def: DefId) | KPool(pool: int)

  datatype Body =
    | ArenaB
    | MsgB(ptr: Ptr)
    | ArrB(ptr: Ptr, ct: CType)
    | MapB(ptr: Ptr, kct: CType, ct: CType)
    | DefB(def: DefId)
    | PoolB(pool: int, defs: map<DefKey, LId>)

  /** A Lua userdata with its uservalue slots; a slot that is not in `uv` holds nil. */
  datatype LuaObj = LuaObj(body: Body, uv: map<int, LId>)

  const ARENA_INDEX: int := 1
  const MSGDEF_INDEX: int := 2
  const MAP_MSGDEF_INDEX: int := 1
  const SYMTAB_INDEX: int := 1

  /** `lua`: the Lua objects that have not been collected. `cache`: the weak
      object cache. `group`: the fuse group of every arena ever made, named by
      one of its members. `roots`: what the Lua program or the Lua stack
      holds. `frees`: how often each definition pool has been freed.
      `pending`: a write whose arenas have not been fused yet, as the
      container and the value that was stored in it. */
  datatype State = State(
    lua: map<LId, LuaObj>,
    next: LId,
    cache: map<Ptr, LId>,
    upb: map<Ptr, Upb>,
    group: map<LId, LId>,
    roots: set<LId>,
    frees: map<int, int>,
    pending: Option<(LId, LId)>)

  const INITIAL: State := State(map[], 0, map[], map[], map[], {}, map[], None)

  predicate IsWrapper(b: Body) {
    b.MsgB? || b.ArrB? || b.MapB?
  }

  predicate WrapperAt(s: State, w: LId) {
    w in s.lua && IsWrapper(s.lua[w].body)
  }

  predicate MsgAt(s: State, w: LId) {
    w in s.lua && s.lua[w].body.MsgB?
  }

  predicate DefAt(s: State, d: LId) {
    d in s.lua && s.lua[d].body.DefB?
  }

  predicate PoolAt(s: State, p: LId) {
    p in s.lua && s.lua[p].body.PoolB?
  }

  /** Reads a uservalue slot; None is Lua's nil. */
  function Slot(s: State, w: LId, i: int): Option<LId> {
    if w in s.lua && i in s.lua[w].uv then Some(s.lua[w].uv[i]) else None
  }

  // Total readers. The invariants show that the defaults are never met.

  function Uv(s: State, w: LId, i: int): LId {
    if Slot(s, w, i).Some? then Slot(s, w, i).value else 0
  }

  function Arena(s: State, w: LId): LId {
    Uv(s, w, ARENA_INDEX)
  }

  function DefOf(s: State, d: LId): DefId {
    if DefAt(s, d) then s.lua[d].body.def else DefId(0, 0)
  }

  function At(s: State, p: Ptr): Upb {
    if p in s.upb then s.upb[p] else Upb(0, TStr, 0, map[])
  }

  function Group(s: State, a: LId): LId {
    if a in s.group then s.group[a] else a
  }

  /** A group's memory is released when the last lupb_Arena in it has been finalised. */
  predicate Released(s: State, a: LId) {
    a in s.group ==> forall b :: b in s.group && s.group[b] == s.group[a] ==> b !in s.lua
  }

  /** malloc may return any address that is not inside unreleased memory. */
  predicate FreshPtr(s: State, p: Ptr) {
    p in s.upb ==> Released(s, s.upb[p].owner)
  }
}
