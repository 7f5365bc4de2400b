/** What each operation of the Lua binding does, told by the types of the objects and the groups
    of their arenas: when it raises, what it returns, and all that it changes. */
module LuaEffects {
  import opened Common
  import opened LuaState
  import opened LuaSteps
  import opened LuaMemory
  import opened LuaTypes
  import opened LuaRuns
  import opened LuaTheorems

  // ----- groups

  /** The groups of `a` and `b` have become one, and no other arenas have come together. */
  ghost predicate Joins(s: State, t: State, a: LId, b: LId) {
    t.group.Keys == s.group.Keys &&
    forall x, y :: Together(t, x, y) <==> Joined(s, x, y, a, b)
  }

  ghost predicate Joined(s: State, x: LId, y: LId, a: LId, b: LId) {
    Together(s, x, y) || (Together(s, x, a) && Together(s, b, y)) || (Together(s, x, b) && Together(s, a, y))
  }

  lemma FuseExact(s: State, to: LId, from: LId)
    requires s.pending.None? && to in s.group && from in s.group
    ensures Joins(s, Fuse(s, to, from), to, from)
  {
  }

  /** Once its fuse is pending, a write counts as fused already. */
  lemma PendingJoins(s: State, w: LId, v: LId)
    requires s.pending.None? && Arena(s, w) in s.group && Arena(s, v) in s.group
    ensures Joins(s, s.(pending := Some((w, v))), Arena(s, w), Arena(s, v))
  {
    var t := s.(pending := Some((w, v)));
    assert Arena(t, w) == Arena(s, w) && Arena(t, v) == Arena(s, v);
  }

  /** The fuse that ends a write joins what the write promised, and changes nothing else. */
  lemma FinishExact(s: State)
    requires MemInv(s) && s.pending.Some?
    ensures var t := FinishWrite(s);
      && t == s.(group := t.group, pending := None) && t.group.Keys == s.group.Keys
      && forall x, y :: Together(t, x, y) <==> Together(s, x, y)
  {
    assert forall a :: a in s.group ==> FinishWrite(s).group[a] == GroupOf(s, a);
  }

  /** A collection releases a group exactly when it takes the last live arena of the group. */
  lemma CollectReleases(s: State, dead: set<LId>, a: LId)
    requires s.pending.None? && a in s.group
    ensures Released(Collect(s, dead), a) <==> forall b :: Together(s, a, b) && b in s.lua ==> b in dead
  {
    var t := Collect(s, dead);
    if Released(t, a) {
      forall b | Together(s, a, b) && b in s.lua ensures b in dead {
        assert b in t.group && t.group[b] == t.group[a];
      }
    }
    if forall b :: Together(s, a, b) && b in s.lua ==> b in dead {
      forall b | b in t.group && t.group[b] == t.group[a] ensures b !in t.lua {
        assert Together(s, a, b);
      }
    }
  }

  /** It takes exactly the dead objects and the weak references to them. */
  lemma CollectExact(s: State, dead: set<LId>)
    ensures var t := Collect(s, dead);
      && t.lua.Keys == s.lua.Keys - dead && (forall i :: i in t.lua ==> LeftAlone(s, t, dead, i))
      && (forall p :: p in t.cache <==> p in s.cache && s.cache[p] !in dead)
      && (forall p :: p in t.cache ==> t.cache[p] == s.cache[p])
      && t == s.(lua := t.lua, cache := t.cache, frees := t.frees)
  {
  }

  ghost predicate LeftAlone(s: State, t: State, dead: set<LId>, i: LId)
    requires i in t.lua
  {
    i in s.lua && t.lua[i].uv == s.lua[i].uv &&
    if s.lua[i].body.PoolB? then
      var was, now := s.lua[i].body.defs, t.lua[i].body;
      && now.PoolB? && now.pool == s.lua[i].body.pool
      && (forall k :: k in now.defs ==> k in was && now.defs[k] == was[k])
      && (forall k :: k in was ==> (k in now.defs <==> was[k] !in dead))
    else t.lua[i].body == s.lua[i].body
  }

  /** A chain of uservalue slots from what the program holds. */
  ghost predicate IsChain(s: State, chain: seq<LId>) {
    && chain != [] && chain[0] in s.roots
    && forall k :: 0 <= k < |chain| - 1 ==> RefersTo(s, chain[k], chain[k + 1])
  }

  ghost predicate RefersTo(s: State, i: LId, j: LId) {
    i in s.lua && exists k :: k in s.lua[i].uv && s.lua[i].uv[k] == j
  }

  ghost predicate InReach(s: State, i: LId) {
    exists chain :: IsChain(s, chain) && chain[|chain| - 1] == i
  }

  ghost function OutOfReach(s: State): set<LId> {
    set i | i in s.lua && !InReach(s, i)
  }

  lemma {:induction false} ChainStays(s: State, dead: set<LId>, chain: seq<LId>)
    requires Garbage(s, dead) && IsChain(s, chain)
    ensures chain[|chain| - 1] !in dead
    decreases |chain|
  {
    if |chain| > 1 {
      var front := chain[..|chain| - 1];
      forall k | 0 <= k < |front| - 1 ensures RefersTo(s, front[k], front[k + 1]) {
        assert RefersTo(s, chain[k], chain[k + 1]);
      }
      ChainStays(s, dead, front);
      assert RefersTo(s, chain[|chain| - 2], chain[|chain| - 1]);
    }
  }

  lemma InReachStep(s: State, i: LId, j: LId)
    requires InReach(s, i) && RefersTo(s, i, j)
    ensures InReach(s, j)
  {
    var chain :| IsChain(s, chain) && chain[|chain| - 1] == i;
    var longer := chain + [j];
    forall k | 0 <= k < |longer| - 1 ensures RefersTo(s, longer[k], longer[k + 1]) {
      if k < |chain| - 1 { assert RefersTo(s, chain[k], chain[k + 1]); }
    }
    assert IsChain(s, longer);
  }

  /** No leaks. All that the program cannot reach is garbage, nothing else ever is, and once it has
      been collected a group is released exactly when the program reaches none of its arenas. */
  lemma FullCollection(sc: Schema, s: State)
    requires Inv(sc, s) && s.pending.None?
    ensures Garbage(s, OutOfReach(s)) && forall dead :: Garbage(s, dead) ==> dead <= OutOfReach(s)
    ensures forall a :: a in s.group ==>
      (Released(Collect(s, OutOfReach(s)), a) <==> forall b :: Together(s, a, b) && b in s.lua ==> !InReach(s, b))
  {
    forall i | i in s.roots ensures i !in OutOfReach(s) { assert IsChain(s, [i]); }
    forall i, k | i in s.lua && i !in OutOfReach(s) && k in s.lua[i].uv ensures s.lua[i].uv[k] !in OutOfReach(s) {
      assert RefersTo(s, i, s.lua[i].uv[k]);
      InReachStep(s, i, s.lua[i].uv[k]);
    }
    forall dead, i | Garbage(s, dead) && i in dead ensures i in OutOfReach(s) {
      if InReach(s, i) {
        var chain :| IsChain(s, chain) && chain[|chain| - 1] == i;
        ChainStays(s, dead, chain);
      }
    }
    forall a | a in s.group
      ensures Released(Collect(s, OutOfReach(s)), a) <==>
              forall b :: Together(s, a, b) && b in s.lua ==> !InReach(s, b)
    {
      CollectReleases(s, OutOfReach(s), a);
    }
  }

  // ----- reads

  /** The Lua objects of `s` live on, and nothing but `r` and definition wrappers is new. */
  ghost predicate OnlyNew(s: State, t: State, r: LId) {
    && (forall i :: i in s.lua ==> i in t.lua && SameObj(s, t, i))
    && (forall i :: i in t.lua && i !in s.lua ==> i == r || DefAt(t, i))
  }

  /** `r` is the one wrapper of the object at `q`: the live one if there is one, or else a new one
      with the arena of `w`. Objects and groups are untouched. */
  ghost predicate Finds(s: State, w: LId, q: Ptr, t: State, r: LId) {
    && WrapperAt(t, r) && t.lua[r].body.ptr == q && q in t.cache && t.cache[q] == r
    && (if q in s.cache then r == s.cache[q] && t.lua == s.lua else r !in s.lua && Arena(t, r) == Arena(s, w))
    && OnlyNew(s, t, r) && t.roots == s.roots + {r} && t.cache == s.cache[q := r]
    && t.upb == s.upb && t.group == s.group && t.frees == s.frees && t.pending == s.pending
  }

  lemma FieldFinds(sc: Schema, s: State, w: LId, f: FieldDef, q: Ptr)
    requires Inv(sc, s) && s.pending.None? && MsgAt(s, w) && HoldsObject(f)
    requires q in s.upb && Together(s, Arena(s, w), s.upb[q].owner) && s.upb[q].ty == FieldType(MsgDef(s, w), f)
    ensures var r := FieldWrapper(s, w, f, q);
      r.Done? && r.ret.Some? && Finds(s, w, q, r.s, r.ret.value)
  {
    if q in s.cache {
      HitFinds(s, w, q);
      assert FieldWrapper(s, w, f, q) == Hit(s, q);
    } else {
      assert s.next !in s.lua;
      if f.ct.CMessage? {
        PushAfterBump(sc, s, w, f);
        FieldMade(s, w, f, q);
      } else {
        PlainMade(s, w, f, q);
      }
    }
  }

  lemma HitFinds(s: State, w: LId, q: Ptr)
    requires CacheExact(s) && q in s.cache
    ensures Finds(s, w, q, Hit(s, q).s, s.cache[q])
  {
    assert WrapperAt(s, s.cache[q]);
    assert s.cache[q := s.cache[q]] == s.cache;
  }

  lemma FieldMade(s: State, w: LId, f: FieldDef, q: Ptr)
    requires q !in s.cache && f.ct.CMessage? && s.next !in s.lua
    requires Pushed(Bump(s, 1), PushSubDef(Bump(s, 1), w, f).0)
    ensures var r := FieldWrapper(s, w, f, q);
      r.Done? && r.ret.Some? && Finds(s, w, q, r.s, r.ret.value)
  {
  }

  lemma PlainMade(s: State, w: LId, f: FieldDef, q: Ptr)
    requires q !in s.cache && !f.ct.CMessage? && s.next !in s.lua
    ensures var r := FieldWrapper(s, w, f, q);
      r.Done? && r.ret.Some? && Finds(s, w, q, r.s, r.ret.value)
  {
  }

  /** `msg.field`: raises when there is no such field. A field that holds no object, and a message
      that is absent, read as no object. Any other field reads as the one wrapper of the object
      under its name; an absent array or map is made, empty, in the group of the message. */
  ghost predicate ReadsField(sc: Schema, s: State, w: LId, name: string, p: Ptr, r: Outcome)
    requires MsgAt(s, w)
  {
    var m, d := s.lua[w].body.ptr, MsgDef(s, w);
    if d !in sc || name !in sc[d] then r == Raised(s) else
    var f, held := sc[d][name], F(name) in At(s, m).edges;
    if f.Single? && (!f.ct.CMessage? || !held) then r == Done(s, None) else
    r.Done? && r.ret.Some? &&
    if held then Finds(s, w, At(s, m).edges[F(name)], r.s, r.ret.value)
    else p !in s.cache && Finds(WithEmpty(s, w, m, name, FieldType(d, f), p), w, p, r.s, r.ret.value)
  }

  /** An empty object of the arena of `w` at `p`, held by `m` under `name`. */
  ghost function WithEmpty(s: State, w: LId, m: Ptr, name: string, ty: UType, p: Ptr): State {
    s.(upb := s.upb[p := Upb(Arena(s, w), ty, 0, map[])][m := At(s, m).(edges := At(s, m).edges[F(name) := p])])
  }

  lemma MsgGetExact(sc: Schema, s: State, w: LId, name: string, p: Ptr)
    requires Inv(sc, s) && s.pending.None? && MsgAt(s, w) && FreshPtr(s, p)
    ensures ReadsField(sc, s, w, name, p, MsgGet(sc, s, w, name, p))
  {
    WrapperFacts(sc, s, w);
    var m := s.lua[w].body.ptr;
    if FindField(sc, MsgDef(s, w), name).Some? {
      var f := FindField(sc, MsgDef(s, w), name).value;
      if F(name) in s.upb[m].edges {
        if HoldsObject(f) { HeldFinds(sc, s, w, name, f); }
      } else if !f.Single? {
        EmptyFinds(sc, s, w, name, f, p);
      }
    }
  }

  lemma HeldFinds(sc: Schema, s: State, w: LId, name: string, f: FieldDef)
    requires Inv(sc, s) && s.pending.None? && MsgAt(s, w)
    requires FindField(sc, MsgDef(s, w), name) == Some(f) && HoldsObject(f)
    requires F(name) in At(s, s.lua[w].body.ptr).edges
    ensures var q := At(s, s.lua[w].body.ptr).edges[F(name)];
      var r := FieldWrapper(s, w, f, q);
      r.Done? && r.ret.Some? && Finds(s, w, q, r.s, r.ret.value)
  {
    WrapperFacts(sc, s, w);
    var m := s.lua[w].body.ptr;
    var q := s.upb[m].edges[F(name)];
    assert EdgesOf(s, m) && EdgeInGroup(s, m, q) && TypedEdges(sc, s, m) && TypedEdge(sc, s, m, F(name));
    FieldFinds(sc, s, w, f, q);
  }

  lemma EmptyFinds(sc: Schema, s: State, w: LId, name: string, f: FieldDef, p: Ptr)
    requires Inv(sc, s) && s.pending.None? && MsgAt(s, w) && FreshPtr(s, p)
    requires FindField(sc, MsgDef(s, w), name) == Some(f) && !f.Single?
    requires F(name) !in At(s, s.lua[w].body.ptr).edges
    ensures var t := WithEmpty(s, w, s.lua[w].body.ptr, name, FieldType(MsgDef(s, w), f), p);
      var r := MsgGet(sc, s, w, name, p);
      r.Done? && r.ret.Some? && Finds(t, w, p, r.s, r.ret.value) && p !in s.cache
  {
    var m := s.lua[w].body.ptr;
    FreshNotCached(s, p);
    KeepMutable(sc, s, w, name, f, p);
    var t := SetPtr(AddUpb(s, p, Upb(Arena(s, w), FieldType(MsgDef(s, w), f), 0, map[])), m, F(name), p);
    assert t == WithEmpty(s, w, m, name, FieldType(MsgDef(s, w), f), p);
    FieldFinds(sc, t, w, f, p);
  }

  /** `arr[n]`: raises outside the array. An element of an array of messages is the one wrapper of
      the message at its index. */
  ghost predicate ReadsElem(s: State, w: LId, n: int, r: Outcome)
    requires WrapperAt(s, w) && s.lua[w].body.ArrB?
  {
    var o := At(s, s.lua[w].body.ptr);
    if n < 1 || n > o.len then r == Raised(s)
    else if !s.lua[w].body.ct.CMessage? then r == Done(s, None)
    else
      && r.Done? && r.ret.Some? && I(n - 1) in o.edges
      && Finds(s, w, o.edges[I(n - 1)], r.s, r.ret.value) && r.s.lua[r.ret.value].body.MsgB?
  }

  lemma ElemFinds(sc: Schema, s: State, w: LId, q: Ptr)
    requires Inv(sc, s) && s.pending.None? && WrapperAt(s, w)
    requires q in s.upb && Together(s, Arena(s, w), s.upb[q].owner)
    requires SlotDef(s, w).Some? && s.upb[q].ty == TMsg(SlotDef(s, w).value)
    ensures var r := ElemWrapper(s, w, q);
      r.Done? && r.ret.Some? && Finds(s, w, q, r.s, r.ret.value) && r.s.lua[r.ret.value].body.MsgB?
  {
    if q in s.cache {
      HitFinds(s, w, q);
      assert TypedWrapper(s, s.cache[q]);
    } else {
      ElemMade(s, w, q);
    }
  }

  lemma ElemMade(s: State, w: LId, q: Ptr)
    requires q !in s.cache && s.next !in s.lua
    ensures var r := ElemWrapper(s, w, q);
      r.Done? && r.ret.Some? && Finds(s, w, q, r.s, r.ret.value) && r.s.lua[r.ret.value].body.MsgB?
  {
  }

  lemma ArrGetExact(sc: Schema, s: State, w: LId, n: int)
    requires Inv(sc, s) && s.pending.None? && WrapperAt(s, w) && s.lua[w].body.ArrB?
    ensures ReadsElem(s, w, n, ArrGet(s, w, n))
  {
    WrapperFacts(sc, s, w);
    var p := s.lua[w].body.ptr;
    if 1 <= n <= s.upb[p].len && s.lua[w].body.ct.CMessage? {
      assert TypedEdges(sc, s, p) && HasSlot(s.upb[p], n - 1);
      var q := s.upb[p].edges[I(n - 1)];
      assert EdgesOf(s, p) && EdgeInGroup(s, p, q) && TypedEdge(sc, s, p, I(n - 1));
      ElemFinds(sc, s, w, q);
    }
  }

  /** `map[key]`: raises on a key of the wrong type. An entry of a map of messages is the one
      wrapper of the message under its key, and absent when there is none. */
  ghost predicate ReadsEntry(s: State, w: LId, key: Option<string>, r: Outcome)
    requires WrapperAt(s, w) && s.lua[w].body.MapB?
  {
    var o := At(s, s.lua[w].body.ptr);
    if key.None? then r == Raised(s)
    else if !s.lua[w].body.ct.CMessage? || K(key.value) !in o.edges then r == Done(s, None)
    else
      && r.Done? && r.ret.Some?
      && Finds(s, w, o.edges[K(key.value)], r.s, r.ret.value) && r.s.lua[r.ret.value].body.MsgB?
  }

  lemma MapGetExact(sc: Schema, s: State, w: LId, key: Option<string>)
    requires Inv(sc, s) && s.pending.None? && WrapperAt(s, w) && s.lua[w].body.MapB?
    ensures ReadsEntry(s, w, key, MapGet(s, w, key))
  {
    WrapperFacts(sc, s, w);
    var p := s.lua[w].body.ptr;
    if key.Some? && s.lua[w].body.ct.CMessage? && K(key.value) in s.upb[p].edges {
      var q := s.upb[p].edges[K(key.value)];
      assert EdgesOf(s, p) && EdgeInGroup(s, p, q) && TypedEdges(sc, s, p) && TypedEdge(sc, s, p, K(key.value));
      ElemFinds(sc, s, w, q);
    }
  }

  /** The type a field declares, by the wrapper of an object: its kind, its scalar types, and the
      definition in its slot, which belongs to the pool of the message. */
  lemma DeclaredType(sc: Schema, s: State, w: LId, d: DefId, f: FieldDef)
    requires Inv(sc, s) && WrapperAt(s, w) && !(f.Single? && !f.ct.CMessage?)
    ensures At(s, s.lua[w].body.ptr).ty == FieldType(d, f) <==>
      && SlotDef(s, w) == (if f.ct.CMessage? then Some(DefId(d.pool, f.sub)) else None)
      && (var b := s.lua[w].body;
          if f.MapField? then b == MapB(b.ptr, f.kct, f.ct)
          else if f.Repeated? then b == ArrB(b.ptr, f.ct) else b == MsgB(b.ptr))
  {
    WrapperFacts(sc, s, w);
  }

  // ----- writes

  /** What a field takes: an object of exactly its declared type, a string, or a scalar. */
  ghost predicate FieldTakes(s: State, w: LId, f: FieldDef, arg: Arg) {
    if !f.Single? || f.ct.CMessage? then
      arg.Obj? && WrapperAt(s, arg.id) && At(s, s.lua[arg.id].body.ptr).ty == FieldType(MsgDef(s, w), f)
    else if f.ct.CString? || f.ct.CBytes? then arg.Text?
    else arg.Plain?
  }

  /** `msg.field = arg`: raises when there is no such field or it does not take the value. An object
      is stored under the name of the field, and its group joins the message's; a string is copied
      into the group of the message. Nothing else changes, but that the check may leave a wrapper
      of the field's definition. */
  ghost predicate WritesField(sc: Schema, s: State, w: LId, name: string, arg: Arg, p: Ptr, r: Outcome)
    requires MsgAt(s, w)
  {
    var m, d := s.lua[w].body.ptr, MsgDef(s, w);
    if d !in sc || name !in sc[d] then r == Raised(s) else
    var f := sc[d][name];
    if !FieldTakes(s, w, f, arg) then r.Raised? && Pushed(s, r.s) && r.s.frees == s.frees else
    r.Done? && r.ret == None &&
    if !f.Single? || f.ct.CMessage? then StoredObject(s, w, name, arg.id, r.s)
    else if arg.Text? then
      r.s == s.(upb := s.upb[p := Upb(Arena(s, w), TStr, 0, map[])][
                  m := At(s, m).(edges := At(s, m).edges[F(name) := p])])
    else r.s == s
  }

  ghost predicate StoredObject(s: State, w: LId, name: string, v: LId, t: State)
    requires MsgAt(s, w) && WrapperAt(s, v)
  {
    var m := s.lua[w].body.ptr;
    && t.upb == s.upb[m := At(s, m).(edges := At(s, m).edges[F(name) := s.lua[v].body.ptr])]
    && Joins(s, t, Arena(s, w), Arena(s, v))
    && Pushed(s, t.(upb := s.upb, group := s.group)) && t.frees == s.frees
  }

  lemma MsgSetExact(sc: Schema, s: State, w: LId, name: string, arg: Arg, p: Ptr)
    requires Inv(sc, s) && s.pending.None? && MsgAt(s, w) && FreshPtr(s, p)
    ensures WritesField(sc, s, w, name, arg, p, MsgSet(sc, s, w, name, arg, p))
  {
    WrapperFacts(sc, s, w);
    if FindField(sc, MsgDef(s, w), name).Some? {
      var f := FindField(sc, MsgDef(s, w), name).value;
      if HoldsObject(f) { ObjectField(sc, s, w, name, f, arg, p); } else { FreshNotCached(s, p); }
    }
  }

  lemma ObjectField(sc: Schema, s: State, w: LId, name: string, f: FieldDef, arg: Arg, p: Ptr)
    requires Inv(sc, s) && s.pending.None? && MsgAt(s, w)
    requires FindField(sc, MsgDef(s, w), name) == Some(f) && HoldsObject(f)
    ensures WritesField(sc, s, w, name, arg, p, MsgSet(sc, s, w, name, arg, p))
  {
    FieldAcceptsExactly(sc, s, w, f, arg);
    KeepCheckField(sc, s, w, f, arg);
    if CheckField(s, w, f, arg).0 {
      assert HoldsArena(s, w) && HoldsArena(s, arg.id);
      ObjectWritten(s, w, name, f, arg);
    }
    ObjectForm(sc, s, w, name, f, arg, p);
  }

  lemma ObjectForm(sc: Schema, s: State, w: LId, name: string, f: FieldDef, arg: Arg, p: Ptr)
    requires MsgAt(s, w) && FindField(sc, MsgDef(s, w), name) == Some(f) && HoldsObject(f)
    requires CheckField(s, w, f, arg).0 <==> FieldTakes(s, w, f, arg)
    requires Pushed(s, CheckField(s, w, f, arg).1)
    requires CheckField(s, w, f, arg).0 ==>
      var m, u := s.lua[w].body.ptr, CheckField(s, w, f, arg).1;
      StoredObject(s, w, name, arg.id,
                   SetPtr(Fuse(u, Arena(s, w), Arena(s, arg.id)), m, F(name), s.lua[arg.id].body.ptr))
    ensures WritesField(sc, s, w, name, arg, p, MsgSet(sc, s, w, name, arg, p))
  {
  }

  lemma ObjectWritten(s: State, w: LId, name: string, f: FieldDef, arg: Arg)
    requires s.pending.None? && MsgAt(s, w) && arg.Obj? && WrapperAt(s, arg.id)
    requires Arena(s, w) in s.group && Arena(s, arg.id) in s.group
    requires Pushed(s, CheckField(s, w, f, arg).1)
    ensures var m, u := s.lua[w].body.ptr, CheckField(s, w, f, arg).1;
      StoredObject(s, w, name, arg.id,
                   SetPtr(Fuse(u, Arena(s, w), Arena(s, arg.id)), m, F(name), s.lua[arg.id].body.ptr))
  {
    var u := CheckField(s, w, f, arg).1;
    FuseExact(u, Arena(s, w), Arena(s, arg.id));
    SameJoins(s, u, SetPtr(Fuse(u, Arena(s, w), Arena(s, arg.id)), s.lua[w].body.ptr, F(name), s.lua[arg.id].body.ptr),
              Arena(s, w), Arena(s, arg.id));
  }

  lemma SameJoins(s: State, u: State, t: State, a: LId, b: LId)
    requires s.pending.None? && u.pending.None? && u.group == s.group && t.pending.None?
    requires a in s.group && b in s.group && t.group == Fuse(u, a, b).group
    ensures Joins(s, t, a, b)
  {
    FuseExact(u, a, b);
    assert forall x, y :: Together(u, x, y) <==> Together(s, x, y);
    assert forall x, y :: Together(t, x, y) <==> Together(Fuse(u, a, b), x, y);
  }

  /** What an array or map takes: a message of exactly the type it remembers, a string, or a scalar. */
  ghost predicate ElemTakes(s: State, w: LId, arg: Arg)
    requires WrapperAt(s, w) && !s.lua[w].body.MsgB?
  {
    var ct := s.lua[w].body.ct;
    if ct.CMessage? then arg.Obj? && MsgAt(s, arg.id) && SlotDef(s, w) == Some(MsgDef(s, arg.id))
    else if ct.CString? || ct.CBytes? then arg.Text?
    else arg.Plain?
  }

  /** The container at `m` has become `o`; a string that was given is at `p`, and a message that was
      given is still to be fused. */
  ghost predicate Wrote(s: State, w: LId, arg: Arg, p: Ptr, m: Ptr, o: Upb, t: State) {
    && t == s.(upb := (if arg.Text? then s.upb[p := Upb(Arena(s, w), TStr, 0, map[])] else s.upb)[m := o],
               pending := if arg.Obj? then Some((w, arg.id)) else s.pending)
    && (arg.Obj? ==> Joins(s, t, Arena(s, w), Arena(s, arg.id)))
  }

  /** The pointer that the given value is stored as. */
  ghost function StoredAs(s: State, arg: Arg, p: Ptr): Option<Ptr> {
    match arg
    case Obj(id) => if WrapperAt(s, id) then Some(s.lua[id].body.ptr) else None
    case Text => Some(p)
    case Plain => None
    case Nil => None
  }

  /** `arr[n] = arg`: raises outside the array and its end, or when the array does not take the
      value. The slot at the end makes the array one longer. */
  ghost predicate WritesElem(s: State, w: LId, n: int, arg: Arg, p: Ptr, r: Outcome)
    requires WrapperAt(s, w) && s.lua[w].body.ArrB?
  {
    var m := s.lua[w].body.ptr;
    var o, q := At(s, m), StoredAs(s, arg, p);
    if n < 1 || n > o.len + 1 || !ElemTakes(s, w, arg) then r == Raised(s) else
    && r.Done? && r.ret == None
    && Wrote(s, w, arg, p, m, o.(len := if n == o.len + 1 then n else o.len,
                                 edges := if q.Some? then o.edges[I(n - 1) := q.value] else o.edges), r.s)
  }

  lemma ArrWriteExact(sc: Schema, s: State, w: LId, n: int, arg: Arg, p: Ptr)
    requires Inv(sc, s) && s.pending.None? && WrapperAt(s, w) && s.lua[w].body.ArrB? && FreshPtr(s, p)
    ensures WritesElem(s, w, n, arg, p, ArrWrite(s, w, n, arg, p))
  {
    WrapperFacts(sc, s, w);
    FreshNotCached(s, p);
    TakenExactly(sc, s, w, arg, p);
  }

  lemma TakenExactly(sc: Schema, s: State, w: LId, arg: Arg, p: Ptr)
    requires Inv(sc, s) && s.pending.None? && WrapperAt(s, w) && !s.lua[w].body.MsgB?
    ensures ToMsgVal(s, s.lua[w].body.ct, w, arg, p).Some? <==> ElemTakes(s, w, arg)
    ensures s.lua[w].body.ct.CMessage? && ElemTakes(s, w, arg) ==>
            Joins(s, s.(pending := Some((w, arg.id))), Arena(s, w), Arena(s, arg.id))
  {
    if s.lua[w].body.ct.CMessage? && arg.Obj? && MsgAt(s, arg.id) {
      ContainerAcceptsExactly(sc, s, w, arg.id, p);
      WrapperFacts(sc, s, w);
      WrapperFacts(sc, s, arg.id);
      PendingJoins(s, w, arg.id);
    }
  }

  /** `map[key] = arg`: raises on a key of the wrong type or when the map does not take the value;
      nil takes the entry out. */
  ghost predicate WritesEntry(s: State, w: LId, key: Option<string>, arg: Arg, p: Ptr, r: Outcome)
    requires WrapperAt(s, w) && s.lua[w].body.MapB?
  {
    var m := s.lua[w].body.ptr;
    var o, q := At(s, m), StoredAs(s, arg, p);
    if key.None? || (!arg.Nil? && !ElemTakes(s, w, arg)) then r == Raised(s) else
    && r.Done? && r.ret == None
    && Wrote(s, w, arg, p, m, o.(edges := if q.Some? then o.edges[K(key.value) := q.value]
                                          else if arg.Nil? then o.edges - {K(key.value)} else o.edges), r.s)
  }

  lemma MapWriteExact(sc: Schema, s: State, w: LId, key: Option<string>, arg: Arg, p: Ptr)
    requires Inv(sc, s) && s.pending.None? && WrapperAt(s, w) && s.lua[w].body.MapB? && FreshPtr(s, p)
    ensures WritesEntry(s, w, key, arg, p, MapWrite(s, w, key, arg, p))
  {
    WrapperFacts(sc, s, w);
    FreshNotCached(s, p);
    TakenExactly(sc, s, w, arg, p);
  }

  // ----- creation

  /** Two Lua objects more: `r`, the wrapper of the object at `p`, and an arena, alone in its group.
      `made` are the objects that were allocated there. */
  ghost predicate Made(s: State, p: Ptr, made: map<Ptr, Upb>, t: State, r: LId) {
    var a := Arena(t, r);
    && r !in s.lua && a !in s.lua && a !in s.group && r != a
    && t.lua.Keys == s.lua.Keys + {r, a} && (forall i :: i in s.lua ==> t.lua[i] == s.lua[i])
    && WrapperAt(t, r) && t.lua[r].body.ptr == p && t.lua[a].body.ArenaB? && p in made && made[p].owner == a
    && t.upb == s.upb + made && t.cache == s.cache[p := r] && t.roots == s.roots + {r}
    && t.frees == s.frees && t.pending == s.pending && NewGroup(s, t, a)
  }

  ghost predicate NewGroup(s: State, t: State, a: LId) {
    t.group.Keys == s.group.Keys + {a} &&
    forall x, y :: Together(t, x, y) <==> Together(s, x, y) || (x == a && y == a)
  }

  /** An empty object of type `ty`. */
  ghost predicate MadeEmpty(s: State, p: Ptr, ty: UType, t: State, r: LId) {
    Made(s, p, map[p := Upb(Arena(t, r), ty, 0, map[])], t, r)
  }

  lemma ObjectMade(s: State, p: Ptr, ty: UType, body: Body, slots: map<int, LId>)
    requires MemInv(s) && s.pending.None? && IsWrapper(body) && body.ptr == p
    ensures var r := NewObject(s, p, ty, body, slots);
      r.Done? && r.ret.Some? && MadeEmpty(s, p, ty, r.s, r.ret.value) && r.s.lua[r.ret.value].body == body
  {
    var t := NewObject(s, p, ty, body, slots).s;
    assert s.next !in s.lua && s.next + 1 !in s.lua;
    ArenaAlone(s, t, s.next + 1);
    ObjectSlots(s, p, ty, body, slots);
  }

  lemma ObjectSlots(s: State, p: Ptr, ty: UType, body: Body, slots: map<int, LId>)
    requires IsWrapper(body) && body.ptr == p && s.next !in s.lua && s.next + 1 !in s.lua
    ensures var t, r, a := NewObject(s, p, ty, body, slots).s, s.next, s.next + 1;
      && t.lua.Keys == s.lua.Keys + {r, a} && (forall i :: i in s.lua ==> t.lua[i] == s.lua[i])
      && t.lua[r].body == body && Arena(t, r) == a && t.lua[a].body.ArenaB?
      && t.upb == s.upb + map[p := Upb(a, ty, 0, map[])] && t.cache == s.cache[p := r]
  {
  }

  lemma ArenaAlone(s: State, t: State, a: LId)
    requires Identities(s) && s.pending.None? && t.pending.None? && a >= s.next && t.group == s.group[a := a]
    ensures a !in s.group && a !in s.lua && NewGroup(s, t, a)
  {
  }

  lemma NewMessageExact(sc: Schema, s: State, d: LId, p: Ptr)
    requires Inv(sc, s) && s.pending.None? && DefAt(s, d) && FreshPtr(s, p)
    ensures var r := NewMessage(s, d, p);
      r.Done? && r.ret.Some? && MadeEmpty(s, p, TMsg(DefOf(s, d)), r.s, r.ret.value) &&
      MsgAt(r.s, r.ret.value) && MsgDef(r.s, r.ret.value) == DefOf(s, d)
  {
    ObjectMade(s, p, TMsg(DefOf(s, d)), MsgB(p), map[MSGDEF_INDEX := d]);
  }

  /** An array of messages remembers their definition, any other array none. */
  lemma NewArrayExact(sc: Schema, s: State, t: TypeArg, p: Ptr)
    requires Inv(sc, s) && s.pending.None? && FreshPtr(s, p) && (t.ByDef? ==> DefAt(s, t.d))
    ensures var r := NewArray(s, t, p);
      && r.Done? && r.ret.Some?
      && MadeEmpty(s, p, if t.ByDef? then TArr(CMessage, Some(DefOf(s, t.d))) else TArr(t.ct, None), r.s, r.ret.value)
      && r.s.lua[r.ret.value].body == ArrB(p, if t.ByDef? then CMessage else t.ct)
      && SlotDef(r.s, r.ret.value) == if t.ByDef? then Some(DefOf(s, t.d)) else None
  {
    match t
    case ByNumber(ct) => ObjectMade(s, p, TArr(ct, None), ArrB(p, ct), map[]);
    case ByDef(d) => ObjectMade(s, p, TArr(CMessage, Some(DefOf(s, d))), ArrB(p, CMessage), map[MSGDEF_INDEX := d]);
  }

  /** A map never remembers a definition, not even a map of messages. */
  lemma NewMapExact(sc: Schema, s: State, kct: CType, t: TypeArg, p: Ptr)
    requires Inv(sc, s) && s.pending.None? && FreshPtr(s, p) && (t.ByDef? ==> DefAt(s, t.d))
    ensures var r := NewMap(s, kct, t, p);
      var ct := if t.ByDef? then CMessage else t.ct;
      && r.Done? && r.ret.Some?
      && MadeEmpty(s, p, TMap(kct, ct, None), r.s, r.ret.value)
      && r.s.lua[r.ret.value].body == MapB(p, kct, ct) && SlotDef(r.s, r.ret.value) == None
  {
    match t
    case ByNumber(ct) => ObjectMade(s, p, TMap(kct, ct, None), MapB(p, kct, ct), map[]);
    case ByDef(d) => ObjectMade(s, p, TMap(kct, CMessage, None), MapB(p, kct, CMessage), map[MAP_MSGDEF_INDEX := d]);
  }

  lemma DecodeExact(sc: Schema, s: State, d: LId, p: Ptr, objs: map<Ptr, Upb>)
    requires Inv(sc, s) && s.pending.None? && DefAt(s, d) && DecoderOk(sc, s, d, p, objs)
    ensures var r := Decode(s, d, p, objs);
      && r.Done? && r.ret.Some? && Made(s, p, objs, r.s, r.ret.value)
      && MsgAt(r.s, r.ret.value) && MsgDef(r.s, r.ret.value) == DefOf(s, d)
  {
    var t := Decode(s, d, p, objs).s;
    assert Arena(t, s.next) == s.next + 1;
    ArenaAlone(s, t, s.next + 1);
  }

  /** An arena that only the C stack holds is alone in its group, and garbage at once. */
  lemma ScratchExact(sc: Schema, s: State)
    requires Inv(sc, s) && s.pending.None?
    ensures var t := Scratch(s);
      && t.lua == s.lua[s.next := LuaObj(ArenaB, map[])] && s.next !in s.lua && NewGroup(s, t, s.next)
      && t == s.(lua := t.lua, group := t.group, next := t.next) && Garbage(t, {s.next})
  {
    ArenaAlone(s, Scratch(s), s.next);
  }

  // ----- definitions and pools

  /** Pushing a definition returns its wrapper, the live one if there is one. */
  lemma PushDefExact(sc: Schema, s: State, x: LId, key: DefKey)
    requires Inv(sc, s) && s.pending.None? && KeyOfPool(s, PoolOf(s, x), key)
    ensures var r := PushDef(s, x, key);
      && r.Done? && r.ret.Some? && r.s.roots == s.roots + {r.ret.value}
      && Pushed(s, r.s.(roots := s.roots)) && r.s.frees == s.frees
      && (key.KDef? ==> DefAt(r.s, r.ret.value) && DefOf(r.s, r.ret.value) == key.def)
      && (key.KPool? ==> Owns(r.s, r.ret.value, key.pool))
      && (forall d :: key.KDef? && DefAt(s, d) && DefOf(s, d) == key.def ==> r.ret.value == d && r.s.lua == s.lua)
  {
    var pool := PoolOf(s, x);
    var (t, id) := PushWrapper(s, pool, key);
    PushWrapperKeeps(s, pool, key);
    forall d | key.KDef? && DefAt(s, d) && DefOf(s, d) == key.def ensures id == d && t.lua == s.lua {
      assert DefOk(s, d);
      assert Owns(s, pool, key.def.pool) && Owns(s, s.lua[d].uv[SYMTAB_INDEX], key.def.pool);
    }
  }

  lemma NewPoolExact(s: State, q: int)
    requires Identities(s) && q !in s.frees
    ensures var r := NewPool(s, q);
      && r.Done? && r.ret.Some? && r.ret.value !in s.lua && Owns(r.s, r.ret.value, q)
      && r.s.lua == s.lua[r.ret.value := r.s.lua[r.ret.value]] && r.s.roots == s.roots + {r.ret.value}
      && r.s == s.(lua := r.s.lua, roots := r.s.roots, next := r.s.next, frees := s.frees[q := 0])
  {
  }
}
