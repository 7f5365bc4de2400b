/** What the invariant gives in every reachable state of the Lua binding. */
module LuaTheorems {
  import opened Common
  import opened LuaState
  import opened LuaSteps
  import opened LuaMemory
  import opened LuaTypes
  import opened LuaRuns

  /** A chain of pointers: each object holds a pointer to the next. */
  ghost predicate IsPath(s: State, path: seq<Ptr>) {
    && |path| > 0
    && forall i :: 0 <= i < |path| - 1 ==> PointsTo(s, path[i], path[i + 1])
  }

  ghost predicate PointsTo(s: State, p: Ptr, q: Ptr) {
    p in s.upb && exists l :: l in s.upb[p].edges && s.upb[p].edges[l] == q
  }

  ghost predicate Alive(s: State, p: Ptr) {
    p in s.upb && s.upb[p].owner in s.group && !Released(s, s.upb[p].owner)
  }

  lemma {:induction false} PathAlive(s: State, path: seq<Ptr>)
    requires MemInv(s) && IsPath(s, path) && Alive(s, path[0])
    ensures Alive(s, path[|path| - 1])
  {
    if |path| > 1 {
      assert PointsTo(s, path[0], path[1]);
      var l :| l in s.upb[path[0]].edges && s.upb[path[0]].edges[l] == path[1];
      assert EdgesOf(s, path[0]) && EdgeInGroup(s, path[0], path[1]);
      TogetherReleased(s, s.upb[path[0]].owner, s.upb[path[1]].owner);
      forall i | 0 <= i < |path[1..]| - 1 ensures PointsTo(s, path[1..][i], path[1..][i + 1]) {
        assert PointsTo(s, path[i + 1], path[i + 2]);
      }
      PathAlive(s, path[1..]);
    }
  }

  /** Memory safety: in every state of every run, between a write and its fuse
      too, whatever a live wrapper reaches through pointers, in cyclic graphs
      too, is in unreleased memory. */
  lemma ReachableIsUnreleased(sc: Schema, states: seq<State>, events: seq<Event>, i: nat, w: LId, path: seq<Ptr>)
    requires IsRun(sc, states, events) && i < |states|
    requires WrapperAt(states[i], w) && IsPath(states[i], path) && path[0] == states[i].lua[w].body.ptr
    ensures Alive(states[i], path[|path| - 1])
  {
    RunKeeps(sc, states, events, i);
    WrapperAlive(states[i], w);
    PathAlive(states[i], path);
  }

  /** The weak cache: a hit is a live wrapper of that address whose object is
      unreleased, an object has at most one live wrapper, and an address that
      malloc may hand out again never hits. */
  lemma CacheIsSound(sc: Schema, states: seq<State>, events: seq<Event>, i: nat, p: Ptr)
    requires IsRun(sc, states, events) && i < |states|
    ensures var s := states[i];
      && (p in s.cache ==> WrapperAt(s, s.cache[p]) && s.lua[s.cache[p]].body.ptr == p && Alive(s, p))
      && (forall v, w :: WrapperAt(s, v) && WrapperAt(s, w) && s.lua[v].body.ptr == p && s.lua[w].body.ptr == p ==> v == w)
      && (FreshPtr(s, p) ==> p !in s.cache)
  {
    RunKeeps(sc, states, events, i);
    if p in states[i].cache { WrapperAlive(states[i], states[i].cache[p]); }
    if FreshPtr(states[i], p) { FreshNotCached(states[i], p); }
  }

  /** Type agreement: a message wrapper's definition slot names its object's
      type, and whatever a live wrapper reaches through one more pointer has
      the type declared for it. */
  lemma TypesAgree(sc: Schema, states: seq<State>, events: seq<Event>, i: nat, w: LId, path: seq<Ptr>, l: Label)
    requires IsRun(sc, states, events) && i < |states|
    requires WrapperAt(states[i], w) && IsPath(states[i], path) && path[0] == states[i].lua[w].body.ptr
    ensures var s, p := states[i], path[|path| - 1];
      && (MsgAt(s, w) ==> DefAt(s, Uv(s, w, MSGDEF_INDEX)) && At(s, s.lua[w].body.ptr).ty == TMsg(MsgDef(s, w)))
      && (l in At(s, p).edges ==>
            At(s, p).edges[l] in s.upb && EdgeType(sc, At(s, p).ty, l, s.upb[At(s, p).edges[l]].ty))
  {
    ReachableIsUnreleased(sc, states, events, i, w, path);
    RunKeeps(sc, states, events, i);
    assert TypedWrapper(states[i], w);
    if l in At(states[i], path[|path| - 1]).edges {
      assert TypedEdges(sc, states[i], path[|path| - 1]) && TypedEdge(sc, states[i], path[|path| - 1], l);
    }
  }

  /** Pools: at any time a pool has been freed at most once, exactly once when
      it has no live owner, and never while a wrapper of one of its
      definitions is live. */
  lemma PoolsFreedOnce(sc: Schema, states: seq<State>, events: seq<Event>, i: nat, q: int)
    requires IsRun(sc, states, events) && i < |states| && q in states[i].frees
    ensures states[i].frees[q] == if HasOwner(states[i], q) then 0 else 1
    ensures forall d :: DefAt(states[i], d) && states[i].lua[d].body.def.pool == q ==> states[i].frees[q] == 0
  {
    var s := states[i];
    RunKeeps(sc, states, events, i);
    if HasOwner(s, q) {
      var o: LId :| Owns(s, o, q);
      assert PoolOk(s, o);
    }
    forall d | DefAt(s, d) && s.lua[d].body.def.pool == q ensures s.frees[q] == 0 {
      assert DefOk(s, d) && PoolOk(s, s.lua[d].uv[SYMTAB_INDEX]);
    }
  }

  /** `file:defpool()` returns the one owner of the pool and makes no object. */
  lemma FilePoolIsOwner(sc: Schema, s: State, d: LId)
    requires Inv(sc, s) && s.pending.None? && DefAt(s, d)
    ensures var r := PushDef(s, d, KPool(DefOf(s, d).pool));
      && r.ret == Some(Uv(s, d, SYMTAB_INDEX)) && Owns(s, Uv(s, d, SYMTAB_INDEX), DefOf(s, d).pool)
      && r.s.lua == s.lua
  {
    assert DefOk(s, d);
    PushWrapperKeeps(s, Uv(s, d, SYMTAB_INDEX), KPool(DefOf(s, d).pool));
  }

  /** Comparing definition wrappers by identity is exact: an object is accepted
      for a field if and only if it is of the declared type. */
  lemma FieldAcceptsExactly(sc: Schema, s: State, w: LId, f: FieldDef, arg: Arg)
    requires Inv(sc, s) && s.pending.None? && MsgAt(s, w) && HoldsObject(f)
    ensures CheckField(s, w, f, arg).0 <==>
      arg.Obj? && WrapperAt(s, arg.id) && At(s, s.lua[arg.id].body.ptr).ty == FieldType(MsgDef(s, w), f)
  {
    WrapperFacts(sc, s, w);
    if CheckField(s, w, f, arg).0 {
      CheckedType(sc, s, w, f, arg);
    } else if arg.Obj? && WrapperAt(s, arg.id) && At(s, s.lua[arg.id].body.ptr).ty == FieldType(MsgDef(s, w), f) {
      WrapperFacts(sc, s, arg.id);
      SameTypeAccepted(s, w, arg.id, f);
    }
  }

  lemma SameTypeAccepted(s: State, w: LId, v: LId, f: FieldDef)
    requires DefInv(s) && MsgAt(s, w) && DefAt(s, Uv(s, w, MSGDEF_INDEX)) && HoldsObject(f)
    requires WrapperAt(s, v) && TypedWrapper(s, v) && At(s, s.lua[v].body.ptr).ty == FieldType(MsgDef(s, w), f)
    ensures CheckField(s, w, f, Obj(v)).0
  {
    var d := Uv(s, w, MSGDEF_INDEX);
    assert DefOk(s, d);
    assert KindMatches(s.lua[v].body, f);
    if f.ct.CMessage? {
      var e := Uv(s, v, MSGDEF_INDEX);
      assert DefAt(s, e) && DefOf(s, e) == SubDef(MsgDef(s, w), f) && DefOk(s, e);
      assert Owns(s, Uv(s, d, SYMTAB_INDEX), DefOf(s, e).pool) && Owns(s, Uv(s, e, SYMTAB_INDEX), DefOf(s, e).pool);
    }
  }

  /** An array or map of messages accepts exactly the messages of the type its
      wrapper remembers; a wrapper that remembers none accepts no message. */
  lemma ContainerAcceptsExactly(sc: Schema, s: State, w: LId, v: LId, p: Ptr)
    requires Inv(sc, s) && WrapperAt(s, w) && !s.lua[w].body.MsgB? && s.lua[w].body.ct.CMessage? && MsgAt(s, v)
    ensures ToMsgVal(s, CMessage, w, Obj(v), p).Some? <==> SlotDef(s, w) == Some(MsgDef(s, v))
  {
    WrapperFacts(sc, s, w);
    WrapperFacts(sc, s, v);
    if SlotDef(s, w) == Some(MsgDef(s, v)) {
      RawEqualDecides(s, Uv(s, w, MSGDEF_INDEX), Uv(s, v, MSGDEF_INDEX));
    }
  }

  /** `upb.Map(key, MessageClass)`: the arena takes the definition's slot, so the
      map rejects every message, and no message field accepts the map.
      `upb.Array(MessageClass)` accepts exactly that class. */
  lemma NewContainers(sc: Schema, s: State, kct: CType, d: LId, p: Ptr)
    requires Inv(sc, s) && s.pending.None? && d in s.roots && DefAt(s, d) && FreshPtr(s, p)
    ensures var r := NewMap(s, kct, ByDef(d), p);
      && r.ret.Some? && RejectsMessages(r.s, r.ret.value)
      && (forall w, f :: MsgAt(r.s, w) && HoldsObject(f) ==> !CheckField(r.s, w, f, Obj(r.ret.value)).0)
    ensures var r := NewArray(s, ByDef(d), p);
      r.ret.Some? && SlotDef(r.s, r.ret.value) == Some(DefOf(s, d))
  {
    var r := NewMap(s, kct, ByDef(d), p);
    NewContainersTyped(s, kct, d, p);
    assert Inv(sc, r.s) by { KeepNewMap(sc, s, kct, ByDef(d), p); }
    forall w, f | MsgAt(r.s, w) && HoldsObject(f) ensures !CheckField(r.s, w, f, Obj(r.ret.value)).0 {
      FieldAcceptsExactly(sc, r.s, w, f, Obj(r.ret.value));
    }
  }

  lemma NewContainersTyped(s: State, kct: CType, d: LId, p: Ptr)
    requires DefAt(s, d) && d < s.next
    ensures var r := NewMap(s, kct, ByDef(d), p);
      && r.ret.Some? && RejectsMessages(r.s, r.ret.value) && r.s.pending == s.pending
      && At(r.s, r.s.lua[r.ret.value].body.ptr).ty == TMap(kct, CMessage, None)
    ensures var r := NewArray(s, ByDef(d), p);
      r.ret.Some? && SlotDef(r.s, r.ret.value) == Some(DefOf(s, d))
  {
  }

  ghost predicate RejectsMessages(s: State, w: LId) {
    && WrapperAt(s, w) && s.lua[w].body.MapB? && s.lua[w].body.ct.CMessage?
    && Slot(s, w, MSGDEF_INDEX) == None
  }

  /** Identities are used once, and no object changes its slots or what it wraps: whatever a step
      leaves alive is new, or was alive before and is the same. */
  ghost predicate Continues(s: State, t: State) {
    s.next <= t.next && forall i :: i in t.lua && i < s.next ==> i in s.lua && SameObj(s, t, i)
  }

  lemma StepContinues(sc: Schema, s: State, e: Event)
    requires Enabled(sc, s, e)
    ensures Continues(s, After(sc, s, e))
  {
    match e
    case ENewPool(q) => NewPoolContinues(s, q);
    case EPushDef(x, key) => PushContinues(s, PoolOf(s, x), key);
    case ENewMessage(d, p) => NewObjectContinues(s, p, TMsg(DefOf(s, d)), MsgB(p), map[MSGDEF_INDEX := d]);
    case ENewArray(t, p) => NewArrayContinues(s, t, p);
    case ENewMap(kct, t, p) => NewMapContinues(s, kct, t, p);
    case EMsgSet(w, name, arg, p) => MsgSetContinues(sc, s, w, name, arg, p);
    case EArrWrite(w, n, arg, p) => ArrWriteContinues(s, w, n, arg, p);
    case EMapWrite(w, key, arg, p) => MapWriteContinues(s, w, key, arg, p);
    case EMsgGet(w, name, p) => MsgGetContinues(sc, s, w, name, p);
    case EArrGet(w, n) => ArrGetContinues(s, w, n);
    case EMapGet(w, key) => MapGetContinues(s, w, key);
    case EDecode(d, p, objs) => DecodeContinues(s, d, p, objs);
    case ECollect(dead) => CollectContinues(s, dead);
    case EFinishWrite =>
    case EScratch =>
    case EDrop(_) =>
  }

  lemma NewPoolContinues(s: State, q: int)
    ensures Continues(s, NewPool(s, q).s)
  {
  }

  lemma NewObjectContinues(s: State, p: Ptr, ty: UType, body: Body, slots: map<int, LId>)
    requires IsWrapper(body)
    ensures Continues(s, NewObject(s, p, ty, body, slots).s)
  {
  }

  lemma NewArrayContinues(s: State, t: TypeArg, p: Ptr)
    ensures Continues(s, NewArray(s, t, p).s)
  {
    match t
    case ByNumber(ct) => NewObjectContinues(s, p, TArr(ct, None), ArrB(p, ct), map[]);
    case ByDef(d) =>
      NewObjectContinues(s, p, TArr(CMessage, Some(DefOf(s, d))), ArrB(p, CMessage), map[MSGDEF_INDEX := d]);
  }

  lemma NewMapContinues(s: State, kct: CType, t: TypeArg, p: Ptr)
    ensures Continues(s, NewMap(s, kct, t, p).s)
  {
    match t
    case ByNumber(ct) => NewObjectContinues(s, p, TMap(kct, ct, None), MapB(p, kct, ct), map[]);
    case ByDef(d) =>
      NewObjectContinues(s, p, TMap(kct, CMessage, None), MapB(p, kct, CMessage), map[MAP_MSGDEF_INDEX := d]);
  }

  lemma PushContinues(s: State, pool: LId, key: DefKey)
    ensures Continues(s, PushWrapper(s, pool, key).0)
  {
  }

  lemma MsgSetContinues(sc: Schema, s: State, w: LId, name: string, arg: Arg, p: Ptr)
    requires MsgAt(s, w)
    ensures Continues(s, MsgSet(sc, s, w, name, arg, p).s)
  {
    if FindField(sc, MsgDef(s, w), name).Some? {
      var f := FindField(sc, MsgDef(s, w), name).value;
      PushContinues(s, Uv(s, Uv(s, w, MSGDEF_INDEX), SYMTAB_INDEX), KDef(SubDef(MsgDef(s, w), f)));
    }
  }

  lemma ArrWriteContinues(s: State, w: LId, n: int, arg: Arg, p: Ptr)
    requires WrapperAt(s, w) && s.lua[w].body.ArrB?
    ensures Continues(s, ArrWrite(s, w, n, arg, p).s)
  {
  }

  lemma MapWriteContinues(s: State, w: LId, key: Option<string>, arg: Arg, p: Ptr)
    requires WrapperAt(s, w) && s.lua[w].body.MapB?
    ensures Continues(s, MapWrite(s, w, key, arg, p).s)
  {
  }

  lemma FieldWrapperContinues(s: State, w: LId, f: FieldDef, q: Ptr)
    ensures Continues(s, FieldWrapper(s, w, f, q).s)
  {
    PushContinues(Bump(s, 1), Uv(s, Uv(s, w, MSGDEF_INDEX), SYMTAB_INDEX), KDef(SubDef(MsgDef(s, w), f)));
  }

  lemma MsgGetContinues(sc: Schema, s: State, w: LId, name: string, p: Ptr)
    requires MsgAt(s, w)
    ensures Continues(s, MsgGet(sc, s, w, name, p).s)
  {
    if FindField(sc, MsgDef(s, w), name).Some? {
      var f := FindField(sc, MsgDef(s, w), name).value;
      var m := s.lua[w].body.ptr;
      if HoldsObject(f) && F(name) in At(s, m).edges {
        FieldWrapperContinues(s, w, f, At(s, m).edges[F(name)]);
      } else if HoldsObject(f) && !f.Single? {
        var o := Upb(Arena(s, w), FieldType(MsgDef(s, w), f), 0, map[]);
        FieldWrapperContinues(SetPtr(AddUpb(s, p, o), m, F(name), p), w, f, p);
      }
    }
  }

  lemma ElemWrapperContinues(s: State, w: LId, q: Ptr)
    ensures Continues(s, ElemWrapper(s, w, q).s)
  {
  }

  lemma ArrGetContinues(s: State, w: LId, n: int)
    requires WrapperAt(s, w) && s.lua[w].body.ArrB?
    ensures Continues(s, ArrGet(s, w, n).s)
  {
    var o := At(s, s.lua[w].body.ptr);
    if 1 <= n <= o.len && I(n - 1) in o.edges { ElemWrapperContinues(s, w, o.edges[I(n - 1)]); }
  }

  lemma MapGetContinues(s: State, w: LId, key: Option<string>)
    requires WrapperAt(s, w) && s.lua[w].body.MapB?
    ensures Continues(s, MapGet(s, w, key).s)
  {
    var o := At(s, s.lua[w].body.ptr);
    if key.Some? && K(key.value) in o.edges { ElemWrapperContinues(s, w, o.edges[K(key.value)]); }
  }

  lemma DecodeContinues(s: State, d: LId, p: Ptr, objs: map<Ptr, Upb>)
    ensures Continues(s, Decode(s, d, p, objs).s)
  {
  }

  lemma CollectContinues(s: State, dead: set<LId>)
    ensures Continues(s, Collect(s, dead))
  {
  }

  /** No step changes the slots of an existing Lua object, or what it wraps. */
  lemma SlotsNeverChange(sc: Schema, s: State, e: Event, i: LId)
    requires Enabled(sc, s, e) && i < s.next && i in After(sc, s, e).lua
    ensures i in s.lua && SameObj(s, After(sc, s, e), i)
  {
    StepContinues(sc, s, e);
  }

  /** A map that rejects messages raises on every write of a message and still rejects them
      after every step it survives. */
  lemma RejectsForGood(sc: Schema, s: State, e: Event, w: LId, key: Option<string>, arg: Arg, p: Ptr)
    requires Inv(sc, s) && Enabled(sc, s, e) && RejectsMessages(s, w)
    ensures !arg.Nil? ==> MapWrite(s, w, key, arg, p) == Raised(s)
    ensures w in After(sc, s, e).lua ==> RejectsMessages(After(sc, s, e), w)
  {
    RejectsWrites(sc, s, w, key, arg, p);
    assert w < s.next;
    if w in After(sc, s, e).lua { SlotsNeverChange(sc, s, e, w); }
  }

  lemma RejectsWrites(sc: Schema, s: State, w: LId, key: Option<string>, arg: Arg, p: Ptr)
    requires Inv(sc, s) && RejectsMessages(s, w)
    ensures !arg.Nil? ==> MapWrite(s, w, key, arg, p) == Raised(s)
  {
    if arg.Obj? && MsgAt(s, arg.id) { assert TypedWrapper(s, arg.id); }
  }

  /** A live map that rejects messages is typed as a map of no message type, and so is accepted
      by no field. */
  lemma NoFieldAccepts(sc: Schema, s: State, w: LId, x: LId, f: FieldDef)
    requires Inv(sc, s) && s.pending.None? && RejectsMessages(s, w) && MsgAt(s, x) && HoldsObject(f)
    ensures !CheckField(s, x, f, Obj(w)).0
  {
    assert TypedWrapper(s, w);
    FieldAcceptsExactly(sc, s, x, f, Obj(w));
  }

  /** In a run where step `i` is `upb.Map(key, MessageClass)`, the new map rejects messages in
      every later state in which it is still alive. */
  lemma {:induction false} MapStaysRejecting(sc: Schema, states: seq<State>, events: seq<Event>, i: nat, j: nat)
    requires IsRun(sc, states, events) && i < j < |states|
    requires events[i].ENewMap? && events[i].t.ByDef?
    ensures states[i].next < states[j].next
    ensures states[i].next in states[j].lua ==> RejectsMessages(states[j], states[i].next)
  {
    var w := states[i].next;
    var s, e := states[j - 1], events[j - 1];
    assert IsStep(sc, states, events, j - 1);
    RunKeeps(sc, states, events, j - 1);
    if j == i + 1 {
      NewContainersTyped(s, e.kct, e.t.d, e.p);
    } else {
      MapStaysRejecting(sc, states, events, i, j - 1);
      StepContinues(sc, s, e);
      if w in states[j].lua { RejectsForGood(sc, s, e, w, None, Nil, 0); }
    }
  }

  /** For good: as long as it lives, every write to it that is not a deletion raises, and no
      message field accepts it. */
  lemma MessageMapIsUseless(sc: Schema, states: seq<State>, events: seq<Event>, i: nat, j: nat)
    requires IsRun(sc, states, events) && i < j < |states|
    requires events[i].ENewMap? && events[i].t.ByDef? && states[i].next in states[j].lua
    ensures var s, w := states[j], states[i].next;
      && RejectsMessages(s, w)
      && (forall key, arg: Arg, p :: !arg.Nil? ==> MapWrite(s, w, key, arg, p) == Raised(s))
      && (s.pending.None? ==> forall x, f :: MsgAt(s, x) && HoldsObject(f) ==> !CheckField(s, x, f, Obj(w)).0)
  {
    var s, w := states[j], states[i].next;
    MapStaysRejecting(sc, states, events, i, j);
    RunKeeps(sc, states, events, j);
    forall key, arg: Arg, p | !arg.Nil? ensures MapWrite(s, w, key, arg, p) == Raised(s) {
      RejectsWrites(sc, s, w, key, arg, p);
    }
    if s.pending.None? {
      forall x, f | MsgAt(s, x) && HoldsObject(f) ensures !CheckField(s, x, f, Obj(w)).0 {
        NoFieldAccepts(sc, s, w, x, f);
      }
    }
  }

  // ----- Reads return what writes stored -----

  /** A message that was assigned to a field is what the field reads: the same
      Lua object, with no new wrapper. */
  lemma SetThenGet(sc: Schema, s: State, w: LId, name: string, arg: Arg, p: Ptr, p': Ptr)
    requires Inv(sc, s) && s.pending.None? && MsgAt(s, w)
    requires FindField(sc, MsgDef(s, w), name).Some? && HoldsObject(FindField(sc, MsgDef(s, w), name).value)
    requires MsgSet(sc, s, w, name, arg, p).Done?
    ensures arg.Obj?
    ensures var t := MsgSet(sc, s, w, name, arg, p).s;
      MsgAt(t, w) && MsgGet(sc, t, w, name, p') == Done(Root(t, arg.id), Some(arg.id))
  {
    var f := FindField(sc, MsgDef(s, w), name).value;
    CheckedType(sc, s, w, f, arg);
    WrapperFacts(sc, s, w);
    assert Pushed(s, CheckField(s, w, f, arg).1) by { KeepCheckField(sc, s, w, f, arg); }
    FieldHit(sc, s, w, name, arg, p, p');
  }

  lemma FieldHit(sc: Schema, s: State, w: LId, name: string, arg: Arg, p: Ptr, p': Ptr)
    requires MsgAt(s, w) && s.lua[w].body.ptr in s.upb && DefAt(s, Uv(s, w, MSGDEF_INDEX))
    requires FindField(sc, MsgDef(s, w), name).Some? && HoldsObject(FindField(sc, MsgDef(s, w), name).value)
    requires MsgSet(sc, s, w, name, arg, p).Done? && arg.Obj? && WrapperAt(s, arg.id)
    requires s.lua[arg.id].body.ptr in s.cache && s.cache[s.lua[arg.id].body.ptr] == arg.id
    requires Pushed(s, CheckField(s, w, FindField(sc, MsgDef(s, w), name).value, arg).1)
    ensures var t := MsgSet(sc, s, w, name, arg, p).s;
      MsgAt(t, w) && MsgGet(sc, t, w, name, p') == Done(Root(t, arg.id), Some(arg.id))
  {
    var t := CheckField(s, w, FindField(sc, MsgDef(s, w), name).value, arg).1;
    assert SameObj(s, t, w) && SameObj(s, t, Uv(s, w, MSGDEF_INDEX));
  }

  /** The same for a message stored in an array slot, once its fuse is done. */
  lemma ArrSetThenGet(sc: Schema, s: State, w: LId, n: int, v: LId, p: Ptr)
    requires Inv(sc, s) && s.pending.None? && w in s.roots && WrapperAt(s, w) && s.lua[w].body.ArrB?
    requires v in s.roots && s.lua[w].body.ct.CMessage? && ArrWrite(s, w, n, Obj(v), p).Done?
    ensures var u := ArrWrite(s, w, n, Obj(v), p).s; var t := FinishWrite(u);
      WrapperAt(t, w) && t.lua[w].body.ArrB? && ArrGet(t, w, n) == Done(Root(t, v), Some(v))
  {
    WrapperFacts(sc, s, w);
    ArrSlots(s, w, n, v, p);
  }

  lemma ArrSlots(s: State, w: LId, n: int, v: LId, p: Ptr)
    requires s.pending.None? && WrapperAt(s, w) && s.lua[w].body.ArrB? && s.lua[w].body.ptr in s.upb
    requires s.lua[w].body.ct.CMessage? && ArrWrite(s, w, n, Obj(v), p).Done?
    requires MsgAt(s, v) ==> s.lua[v].body.ptr in s.cache && s.cache[s.lua[v].body.ptr] == v
    ensures var t := FinishWrite(ArrWrite(s, w, n, Obj(v), p).s);
      WrapperAt(t, w) && t.lua[w].body.ArrB? && ArrGet(t, w, n) == Done(Root(t, v), Some(v))
  {
  }

  /** The same for a map entry, and no other entry is affected. */
  lemma MapSetThenGet(sc: Schema, s: State, w: LId, k: string, v: LId, p: Ptr, other: string)
    requires Inv(sc, s) && s.pending.None? && w in s.roots && WrapperAt(s, w) && s.lua[w].body.MapB?
    requires s.lua[w].body.ct.CMessage? && v in s.roots && MapWrite(s, w, Some(k), Obj(v), p).Done?
    ensures MapEntryReads(s, MapWrite(s, w, Some(k), Obj(v), p).s, w, k, v, other)
  {
    WrapperFacts(sc, s, w);
    MapEntries(s, w, k, v, p, other);
  }

  /** After the write `u` and its fuse, the entry reads as `v` and `other` as before. */
  ghost predicate MapEntryReads(s: State, u: State, w: LId, k: string, v: LId, other: string) {
    u.pending.Some? &&
    var t := FinishWrite(u);
    && WrapperAt(s, w) && s.lua[w].body.MapB? && WrapperAt(t, w) && t.lua[w].body.MapB?
    && MapGet(t, w, Some(k)) == Done(Root(t, v), Some(v))
    && (other != k ==> MapGet(t, w, Some(other)).ret == MapGet(s, w, Some(other)).ret)
  }

  lemma MapEntries(s: State, w: LId, k: string, v: LId, p: Ptr, other: string)
    requires s.pending.None? && WrapperAt(s, w) && s.lua[w].body.MapB? && s.lua[w].body.ptr in s.upb
    requires s.lua[w].body.ct.CMessage? && MapWrite(s, w, Some(k), Obj(v), p).Done?
    requires MsgAt(s, v) ==> s.lua[v].body.ptr in s.cache && s.cache[s.lua[v].body.ptr] == v
    ensures MapEntryReads(s, MapWrite(s, w, Some(k), Obj(v), p).s, w, k, v, other)
  {
  }

  /** A deleted entry reads as nil; the others stay. */
  lemma MapDeleteThenGet(s: State, w: LId, k: string, p: Ptr, other: string)
    requires WrapperAt(s, w) && s.lua[w].body.MapB? && s.lua[w].body.ptr in s.upb
    ensures var t := MapWrite(s, w, Some(k), Nil, p).s;
      && MapGet(t, w, Some(k)) == Done(t, None)
      && (other != k ==> MapGet(t, w, Some(other)).ret == MapGet(s, w, Some(other)).ret)
  {
  }
}
