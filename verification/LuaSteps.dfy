/** The operations of the Lua binding as functions on the state. `sc` is the
    schema, `p` an address supplied by malloc. */
module LuaSteps {
  import opened Common
  import opened LuaState

  /** What an operation leaves behind: a new state and the Lua object it
      returns (None for nil or for a value that is not an object), or a raised
      Lua error. */
  datatype Outcome = Done(s: State, ret: Option<LId>) | Raised(s: State)

  /** A Lua argument: a userdata, a string, another value that passed its
      scalar check, or nil. */
  datatype Arg = Obj(id: LId) | Text | Plain | Nil

  /** How the element type of a new array or map is given. */
  datatype TypeArg = ByNumber(ct: CType) | ByDef(d: LId)

  // ----- Building blocks -----

  function Bump(s: State, n: int): State {
    s.(next := s.next + n)
  }

  function AddArena(s: State, a: LId): State {
    s.(lua := s.lua[a := LuaObj(ArenaB, map[])], group := s.group[a := a])
  }

  function AddUpb(s: State, p: Ptr, o: Upb): State {
    s.(upb := s.upb[p := o])
  }

  function AddWrapper(s: State, w: LId, body: Body, uv: map<int, LId>): State
    requires IsWrapper(body)
  {
    s.(lua := s.lua[w := LuaObj(body, uv)],
       cache := s.cache[body.ptr := w],
       roots := s.roots + {w})
  }

  function SetPtr(s: State, p: Ptr, l: Label, q: Ptr): State {
    AddUpb(s, p, At(s, p).(edges := At(s, p).edges[l := q]))
  }

  /** upb_Array_Set, or upb_Array_Append when `i` is the length. */
  function SetElem(s: State, p: Ptr, i: nat, q: Option<Ptr>): State {
    var o := At(s, p);
    AddUpb(s, p, o.(edges := if q.Some? then o.edges[I(i) := q.value] else o.edges,
                    len := if i == o.len then i + 1 else o.len))
  }

  function Root(s: State, o: LId): State {
    s.(roots := s.roots + {o})
  }

  /** upb_Arena_Fuse: one group that contains both. */
  function Fuse(s: State, to: LId, from: LId): State {
    s.(group := map a | a in s.group ::
         if s.group[a] == Group(s, from) then Group(s, to) else s.group[a])
  }

  /** The slots of a wrapper: its arena, and its definition if it has one. */
  function Slots(a: LId, d: Option<LId>): map<int, LId> {
    var uv := map[ARENA_INDEX := a];
    if d.Some? then uv[MSGDEF_INDEX := d.value] else uv
  }

  // ----- Definitions (src/lua/def.c) -----

  function NewPool(s: State, q: int): Outcome {
    var id := s.next;
    Done(Root(Bump(s, 1), id).(
           lua := s.lua[id := LuaObj(PoolB(q, map[KPool(q) := id]), map[])],
           frees := s.frees[q := 0]),
         Some(id))
  }

  /** lupb_DefPool_pushwrapper: find the wrapper of `key` in the pool's cache, or make one. */
  function PushWrapper(s: State, pool: LId, key: DefKey): (State, LId) {
    if !PoolAt(s, pool) then (s, pool) else
    var body := s.lua[pool].body;
    if key in body.defs then (s, body.defs[key]) else
    var id := s.next;
    var made := match key case KDef(d) => DefB(d) case KPool(q) => PoolB(q, map[]);
    (Bump(s, 1).(lua := s.lua[id := LuaObj(made, map[SYMTAB_INDEX := pool])]
                            [pool := s.lua[pool].(body := body.(defs := body.defs[key := id]))]),
     id)
  }

  /** The pool object an operation on `x` goes through: `x` itself or the pool `x` refers to. */
  function PoolOf(s: State, x: LId): LId {
    if PoolAt(s, x) then x else Uv(s, x, SYMTAB_INDEX)
  }

  function PushDef(s: State, x: LId, key: DefKey): Outcome {
    var (s1, id) := PushWrapper(s, PoolOf(s, x), key);
    Done(Root(s1, id), Some(id))
  }

  /** The definition wrapper in a message wrapper's slot, and its definition. */
  function MsgDef(s: State, w: LId): DefId {
    DefOf(s, Uv(s, w, MSGDEF_INDEX))
  }

  /** lupb_MessageDef_pushsubmsgdef, for the definition in the slot of `w`. */
  function PushSubDef(s: State, w: LId, f: FieldDef): (State, LId) {
    PushWrapper(s, Uv(s, Uv(s, w, MSGDEF_INDEX), SYMTAB_INDEX), KDef(SubDef(MsgDef(s, w), f)))
  }

  // ----- Creation -----

  /** A new upb object in a new arena of its own. */
  function Allocate(s: State, p: Ptr, ty: UType): State {
    AddUpb(AddArena(Bump(s, 2), s.next + 1), p, Upb(s.next + 1, ty, 0, map[]))
  }

  /** The object, its wrapper and its cache entry. */
  function NewObject(s: State, p: Ptr, ty: UType, body: Body, slots: map<int, LId>): Outcome
    requires IsWrapper(body)
  {
    Done(AddWrapper(Allocate(s, p, ty), s.next, body, slots[ARENA_INDEX := s.next + 1]), Some(s.next))
  }

  function NewMessage(s: State, d: LId, p: Ptr): Outcome {
    NewObject(s, p, TMsg(DefOf(s, d)), MsgB(p), map[MSGDEF_INDEX := d])
  }

  function NewArray(s: State, t: TypeArg, p: Ptr): Outcome {
    match t
    case ByNumber(ct) => NewObject(s, p, TArr(ct, None), ArrB(p, ct), map[])
    case ByDef(d) => NewObject(s, p, TArr(CMessage, Some(DefOf(s, d))), ArrB(p, CMessage), map[MSGDEF_INDEX := d])
  }

  /** The definition of a message map goes to slot 1, which the arena then takes. */
  function NewMap(s: State, kct: CType, t: TypeArg, p: Ptr): Outcome {
    match t
    case ByNumber(ct) => NewObject(s, p, TMap(kct, ct, None), MapB(p, kct, ct), map[])
    case ByDef(d) => NewObject(s, p, TMap(kct, CMessage, None), MapB(p, kct, CMessage), map[MAP_MSGDEF_INDEX := d])
  }

  // ----- Writes -----

  /** lupb_tomsgval: the pointer to store (None for a value without one), with
      a string copied into the container's arena; or None when it raises. */
  function ToMsgVal(s: State, ct: CType, w: LId, arg: Arg, p: Ptr): Option<(State, Option<Ptr>)> {
    if ct.CMessage? then
      if arg.Obj? && MsgAt(s, arg.id) && Slot(s, w, MSGDEF_INDEX) == Slot(s, arg.id, MSGDEF_INDEX)
      then Some((s, Some(s.lua[arg.id].body.ptr))) else None
    else if IsText(ct) then
      if arg.Text? then Some((AddUpb(s, p, Upb(Arena(s, w), TStr, 0, map[])), Some(p))) else None
    else if arg.Plain? then Some((s, None)) else None
  }

  function Store(s: State, p: Ptr, l: Label, q: Option<Ptr>): State {
    if q.Some? then SetPtr(s, p, l, q.value) else s
  }

  /** The write has been done and the arenas of `w` and `arg` are still to be fused. */
  function Pend(s: State, ct: CType, w: LId, arg: Arg): State
  {
    if ct.CMessage? && arg.Obj? then s.(pending := Some((w, arg.id))) else s
  }

  /** lupb_Array_Newindex up to its write. */
  function ArrWrite(s: State, w: LId, n: int, arg: Arg, p: Ptr): Outcome
    requires WrapperAt(s, w) && s.lua[w].body.ArrB?
  {
    var arr, ct := s.lua[w].body.ptr, s.lua[w].body.ct;
    if !(1 <= n <= At(s, arr).len + 1) then Raised(s) else
    match ToMsgVal(s, ct, w, arg, p)
    case None => Raised(s)
    case Some((s1, q)) => Done(Pend(SetElem(s1, arr, n - 1, q), ct, w, arg), None)
  }

  /** lupb_Map_Newindex up to its write; `key` is None when the key check raises. */
  function MapWrite(s: State, w: LId, key: Option<string>, arg: Arg, p: Ptr): Outcome
    requires WrapperAt(s, w) && s.lua[w].body.MapB?
  {
    var m, ct := s.lua[w].body.ptr, s.lua[w].body.ct;
    if key.None? then Raised(s) else
    if arg.Nil? then
      Done(AddUpb(s, m, At(s, m).(edges := At(s, m).edges - {K(key.value)})), None)
    else
      match ToMsgVal(s, ct, w, arg, p)
      case None => Raised(s)
      case Some((s1, q)) => Done(Pend(Store(s1, m, K(key.value), q), ct, w, arg), None)
  }

  /** The fuse that ends an array or map write. */
  function FinishWrite(s: State): State
    requires s.pending.Some?
  {
    Fuse(s, Arena(s, s.pending.value.0), Arena(s, s.pending.value.1)).(pending := None)
  }

  function FindField(sc: Schema, d: DefId, name: string): Option<FieldDef> {
    if d in sc && name in sc[d] then Some(sc[d][name]) else None
  }

  /** lupb_msg_typechecksubmsg: is `v` typed with the submessage of field `f` of `w`? */
  function CheckSub(s: State, w: LId, v: LId, f: FieldDef): (bool, State) {
    var (s1, e) := PushSubDef(s, w, f);
    (Slot(s, v, MSGDEF_INDEX) == Some(e), s1)
  }

  /** Is `v` the kind of userdata that field `f` takes, before definitions are compared? */
  predicate KindMatches(b: Body, f: FieldDef) {
    match f
    case MapField(kct, ct, _) => b.MapB? && b.kct == kct && b.ct == ct
    case Repeated(ct, _) => b.ArrB? && b.ct == ct
    case Single(ct, _) => ct.CMessage? && b.MsgB?
  }

  /** The type checks of lupb_Message_Newindex for a field that holds an object. */
  function CheckField(s: State, w: LId, f: FieldDef, arg: Arg): (bool, State) {
    if !(arg.Obj? && arg.id in s.lua && KindMatches(s.lua[arg.id].body, f)) then (false, s)
    else if f.ct.CMessage? then CheckSub(s, w, arg.id, f)
    else (true, s)
  }

  predicate HoldsObject(f: FieldDef) {
    f.MapField? || f.Repeated? || f.ct.CMessage?
  }

  /** lupb_Message_Newindex: check, fuse, then write. */
  function MsgSet(sc: Schema, s: State, w: LId, name: string, arg: Arg, p: Ptr): Outcome
    requires MsgAt(s, w)
  {
    var m := s.lua[w].body.ptr;
    match FindField(sc, MsgDef(s, w), name)
    case None => Raised(s)
    case Some(f) =>
      if HoldsObject(f) then
        var (ok, s1) := CheckField(s, w, f, arg);
        if !ok then Raised(s1) else
        Done(SetPtr(Fuse(s1, Arena(s, w), Arena(s, arg.id)), m, F(name), s.lua[arg.id].body.ptr), None)
      else
        match ToMsgVal(s, f.ct, w, arg, p)
        case None => Raised(s)
        case Some((s1, q)) => Done(Store(s1, m, F(name), q), None)
  }

  // ----- Reads -----

  /** The type of the object that field `f` of a message of type `d` holds. */
  function FieldType(d: DefId, f: FieldDef): UType {
    var elem := if f.ct.CMessage? then Some(SubDef(d, f)) else None;
    match f
    case MapField(kct, ct, _) => TMap(kct, ct, elem)
    case Repeated(ct, _) => TArr(ct, elem)
    case Single(_, _) => TMsg(SubDef(d, f))
  }

  function FieldBody(f: FieldDef, q: Ptr): Body {
    match f
    case MapField(kct, ct, _) => MapB(q, kct, ct)
    case Repeated(ct, _) => ArrB(q, ct)
    case Single(_, _) => MsgB(q)
  }

  function Hit(s: State, q: Ptr): Outcome
    requires q in s.cache
  {
    Done(Root(s, s.cache[q]), Some(s.cache[q]))
  }

  /** lupb_cacheget, else lupb_Message_Newwrapper. */
  function FieldWrapper(s: State, w: LId, f: FieldDef, q: Ptr): Outcome {
    if q in s.cache then Hit(s, q) else
    var id := s.next;
    if f.ct.CMessage? then
      var (s1, e) := PushSubDef(Bump(s, 1), w, f);
      Done(AddWrapper(s1, id, FieldBody(f, q), Slots(Arena(s, w), Some(e))), Some(id))
    else
      Done(AddWrapper(Bump(s, 1), id, FieldBody(f, q), Slots(Arena(s, w), None)), Some(id))
  }

  /** lupb_cacheget, else lupb_Message_Newmsgwrapper: arena and definition come from the container. */
  function ElemWrapper(s: State, w: LId, q: Ptr): Outcome {
    if q in s.cache then Hit(s, q) else
    Done(AddWrapper(Bump(s, 1), s.next, MsgB(q), Slots(Arena(s, w), Slot(s, w, MSGDEF_INDEX))), Some(s.next))
  }

  /** lupb_msg_index. A repeated or map field that is absent is made in the wrapper's arena. */
  function MsgGet(sc: Schema, s: State, w: LId, name: string, p: Ptr): Outcome
    requires MsgAt(s, w)
  {
    var m := s.lua[w].body.ptr;
    match FindField(sc, MsgDef(s, w), name)
    case None => Raised(s)
    case Some(f) =>
      if !HoldsObject(f) then Done(s, None)
      else if F(name) in At(s, m).edges then FieldWrapper(s, w, f, At(s, m).edges[F(name)])
      else if f.Single? then Done(s, None)
      else
        var s1 := AddUpb(s, p, Upb(Arena(s, w), FieldType(MsgDef(s, w), f), 0, map[]));
        FieldWrapper(SetPtr(s1, m, F(name), p), w, f, p)
  }

  /** lupb_array_index. */
  function ArrGet(s: State, w: LId, n: int): Outcome
    requires WrapperAt(s, w) && s.lua[w].body.ArrB?
  {
    var o := At(s, s.lua[w].body.ptr);
    if !(1 <= n <= o.len) then Raised(s)
    else if s.lua[w].body.ct.CMessage? && I(n - 1) in o.edges then ElemWrapper(s, w, o.edges[I(n - 1)])
    else Done(s, None)
  }

  /** lupb_map_index, and one step of the iterator. */
  function MapGet(s: State, w: LId, key: Option<string>): Outcome
    requires WrapperAt(s, w) && s.lua[w].body.MapB?
  {
    var o := At(s, s.lua[w].body.ptr);
    if key.None? then Raised(s)
    else if s.lua[w].body.ct.CMessage? && K(key.value) in o.edges then ElemWrapper(s, w, o.edges[K(key.value)])
    else Done(s, None)
  }

  // ----- Decode, scratch arenas and the collector -----

  /** lupb_decode: a new message at `p` and the objects `objs` that upb fills
      it with, the message's own contents among them, all in one new arena. */
  function Decode(s: State, d: LId, p: Ptr, objs: map<Ptr, Upb>): Outcome {
    var filled := AddArena(Bump(s, 2), s.next + 1).(upb := s.upb + objs);
    Done(AddWrapper(filled, s.next, MsgB(p), Slots(s.next + 1, Some(d))), Some(s.next))
  }

  /** lupb_Encode and lupb_DefPool_AddFile push an arena that nothing keeps. */
  function Scratch(s: State): State {
    AddArena(Bump(s, 1), s.next)
  }

  function Drop(s: State, o: LId): State {
    s.(roots := s.roots - {o})
  }

  /** The collector may take any set of objects that nothing outside it refers to. */
  ghost predicate Garbage(s: State, dead: set<LId>) {
    && dead <= s.lua.Keys && dead !! s.roots
    && forall i, k :: i in s.lua && i !in dead && k in s.lua[i].uv ==> s.lua[i].uv[k] !in dead
  }

  /** Weak values vanish from a pool's cache. */
  function Sweep(b: Body, dead: set<LId>): Body {
    if b.PoolB? then b.(defs := map k | k in b.defs && b.defs[k] !in dead :: b.defs[k]) else b
  }

  function DeadOwners(s: State, dead: set<LId>, q: int): set<LId> {
    set i | i in dead && PoolAt(s, i) && s.lua[i].body.pool == q
  }

  /** Collect `dead`: weak references go first, then `__gc` frees the arenas and pools. */
  function Collect(s: State, dead: set<LId>): State {
    s.(lua := map i | i in s.lua && i !in dead :: s.lua[i].(body := Sweep(s.lua[i].body, dead)),
       cache := map p | p in s.cache && s.cache[p] !in dead :: s.cache[p],
       frees := map q | q in s.frees :: s.frees[q] + |DeadOwners(s, dead, q)|)
  }
}
