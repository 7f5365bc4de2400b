/** Memory safety of the object graph: the two key invariants that
    src/lua/msg.c states for wrappers and arenas, and the soundness of the
    weak cache, kept by every building block. */
module LuaMemory {
  import opened Common
  import opened LuaState
  import opened LuaSteps

  /** The group an arena is in, or will be in once a pending fuse is done. */
  ghost function GroupOf(s: State, a: LId): LId {
    if s.pending.Some? && Group(s, a) == Group(s, Arena(s, s.pending.value.1))
    then Group(s, Arena(s, s.pending.value.0))
    else Group(s, a)
  }

  ghost predicate Together(s: State, a: LId, b: LId) {
    a in s.group && b in s.group && GroupOf(s, a) == GroupOf(s, b)
  }

  /** Both wrappers of a pending write are held by the Lua stack, and so are their arenas. */
  ghost predicate PendingOk(s: State) {
    s.pending.Some? ==> HeldWrapper(s, s.pending.value.0) && HeldWrapper(s, s.pending.value.1)
  }

  ghost predicate HeldWrapper(s: State, w: LId) {
    w in s.roots && WrapperAt(s, w) && HoldsArena(s, w)
  }

  ghost predicate Identities(s: State) {
    && (forall i :: i in s.lua ==> i < s.next)
    && (forall a :: a in s.group ==> a < s.next && s.group[a] < s.next)
    && (forall i :: i in s.lua && s.lua[i].body.ArenaB? ==> i in s.group)
  }

  ghost predicate NoDangling(s: State) {
    && s.roots <= s.lua.Keys
    && forall i, k :: i in s.lua && k in s.lua[i].uv ==> s.lua[i].uv[k] in s.lua
  }

  ghost predicate Owned(s: State) {
    forall p :: p in s.upb ==> s.upb[p].owner in s.group
  }

  /** Every wrapper references a live arena of the group that contains its object. */
  ghost predicate WrapperHoldsArena(s: State) {
    forall w :: WrapperAt(s, w) ==> HoldsArena(s, w)
  }

  ghost predicate HoldsArena(s: State, w: LId)
    requires WrapperAt(s, w)
  {
    && ARENA_INDEX in s.lua[w].uv
    && Arena(s, w) in s.lua && s.lua[Arena(s, w)].body.ArenaB?
    && s.lua[w].body.ptr in s.upb
    && Together(s, Arena(s, w), s.upb[s.lua[w].body.ptr].owner)
  }

  /** Objects that reference each other live in one group. */
  ghost predicate EdgesInGroup(s: State) {
    forall p :: p in s.upb && !Released(s, s.upb[p].owner) ==> EdgesOf(s, p)
  }

  ghost predicate EdgesOf(s: State, p: Ptr)
    requires p in s.upb
  {
    forall l :: l in s.upb[p].edges ==> EdgeInGroup(s, p, s.upb[p].edges[l])
  }

  ghost predicate EdgeInGroup(s: State, p: Ptr, q: Ptr)
    requires p in s.upb
  {
    q in s.upb && Together(s, s.upb[p].owner, s.upb[q].owner)
  }

  /** A cache entry names a live wrapper of its address, and every live wrapper is in the cache. */
  ghost predicate CacheExact(s: State) {
    && (forall p :: p in s.cache ==> WrapperAt(s, s.cache[p]) && s.lua[s.cache[p]].body.ptr == p)
    && (forall w :: WrapperAt(s, w) ==> s.lua[w].body.ptr in s.cache && s.cache[s.lua[w].body.ptr] == w)
  }

  ghost predicate MemInv(s: State) {
    && PendingOk(s) && Identities(s) && NoDangling(s) && Owned(s)
    && WrapperHoldsArena(s) && EdgesInGroup(s) && CacheExact(s)
  }

  /** An identity that no object has had yet. */
  ghost predicate FreshId(s: State, i: LId) {
    i < s.next && i !in s.lua && i !in s.group && forall a :: a in s.group ==> s.group[a] != i
  }

  /** Arenas that are together, now or after the pending fuse, are released together. */
  lemma TogetherReleased(s: State, a: LId, b: LId)
    requires MemInv(s) && Together(s, a, b)
    ensures Released(s, a) == Released(s, b)
  {
    if s.group[a] != s.group[b] {
      var x, y := Arena(s, s.pending.value.0), Arena(s, s.pending.value.1);
      assert x in s.lua && y in s.lua;
    }
  }

  /** A live wrapper's object is in unreleased memory. */
  lemma WrapperAlive(s: State, w: LId)
    requires MemInv(s) && WrapperAt(s, w)
    ensures s.lua[w].body.ptr in s.upb && s.upb[s.lua[w].body.ptr].owner in s.group
    ensures !Released(s, s.upb[s.lua[w].body.ptr].owner)
    ensures !Released(s, Arena(s, w))
  {
    assert HoldsArena(s, w);
    TogetherReleased(s, Arena(s, w), s.upb[s.lua[w].body.ptr].owner);
  }

  /** No live wrapper, and so no cache entry, has an address that malloc may hand out. */
  lemma FreshNotCached(s: State, p: Ptr)
    requires MemInv(s) && FreshPtr(s, p)
    ensures p !in s.cache
    ensures forall w :: WrapperAt(s, w) ==> s.lua[w].body.ptr != p
  {
    forall w | WrapperAt(s, w) ensures s.lua[w].body.ptr != p {
      WrapperAlive(s, w);
    }
  }

  // ----- The building blocks keep the invariant -----

  /** Arena `a` is in the same group as before and is released only if it was before. */
  ghost predicate ArenaKept(s: State, t: State, a: LId) {
    && a in t.group && GroupOf(t, a) == GroupOf(s, a)
    && (Released(s, a) ==> Released(t, a))
  }

  ghost predicate ArenasKept(s: State, t: State) {
    forall a :: a in s.group ==> ArenaKept(s, t, a)
  }

  /** The wrapper is as before: same arena slot, same object. */
  ghost predicate WrapperKept(s: State, t: State, w: LId)
    requires WrapperAt(t, w)
  {
    WrapperAt(s, w) && s.lua[w].body == t.lua[w].body && Arena(s, w) == Arena(t, w)
    && (ARENA_INDEX in s.lua[w].uv ==> ARENA_INDEX in t.lua[w].uv)
    && (Arena(s, w) in s.lua && s.lua[Arena(s, w)].body.ArenaB? ==>
          Arena(s, w) in t.lua && t.lua[Arena(s, w)].body.ArenaB?)
  }

  lemma SameArenas(s: State, t: State)
    requires PendingOk(s) && t.group == s.group && t.pending == s.pending
    requires forall i :: i in s.lua ==> i in t.lua && t.lua[i].uv == s.lua[i].uv
    requires forall i :: i in t.lua && i in s.group ==> i in s.lua
    ensures ArenasKept(s, t)
  {
  }

  lemma FrameWrappers(s: State, t: State)
    requires MemInv(s) && ArenasKept(s, t)
    requires forall p :: p in s.upb ==> p in t.upb
    requires forall p :: p in s.upb && !Released(s, s.upb[p].owner) ==> t.upb[p].owner == s.upb[p].owner
    requires forall w :: WrapperAt(t, w) ==> WrapperKept(s, t, w) || HoldsArena(t, w)
    ensures WrapperHoldsArena(t)
  {
    forall w | WrapperAt(t, w) ensures HoldsArena(t, w) {
      if WrapperKept(s, t, w) {
        WrapperAlive(s, w);
        assert HoldsArena(s, w);
        assert ArenaKept(s, t, Arena(s, w)) && ArenaKept(s, t, s.upb[s.lua[w].body.ptr].owner);
      }
    }
  }

  lemma FrameEdges(s: State, t: State)
    requires MemInv(s) && ArenasKept(s, t)
    requires forall p :: p in s.upb ==> p in t.upb
    requires forall p :: p in s.upb && !Released(s, s.upb[p].owner) ==> t.upb[p].owner == s.upb[p].owner
    requires forall p :: p in t.upb ==> (p in s.upb && t.upb[p].owner == s.upb[p].owner && t.upb[p].edges == s.upb[p].edges)
                                        || EdgesOf(t, p)
    ensures EdgesInGroup(t)
  {
    forall p | p in t.upb && !Released(t, t.upb[p].owner) ensures EdgesOf(t, p) {
      if p in s.upb && t.upb[p].owner == s.upb[p].owner && t.upb[p].edges == s.upb[p].edges {
        assert ArenaKept(s, t, s.upb[p].owner);
        forall l | l in t.upb[p].edges ensures EdgeInGroup(t, p, t.upb[p].edges[l]) {
          var q := s.upb[p].edges[l];
          assert EdgesOf(s, p) && EdgeInGroup(s, p, q);
          TogetherReleased(s, s.upb[p].owner, s.upb[q].owner);
          assert ArenaKept(s, t, s.upb[q].owner);
        }
      }
    }
  }

  /** One Lua object more; the others keep their slots and what they wrap. */
  ghost predicate Extends(s: State, t: State, id: LId) {
    && id !in s.lua && t.lua.Keys == s.lua.Keys + {id}
    && (forall i :: i in s.lua ==> SameObj(s, t, i))
    && (forall k :: k in t.lua[id].uv ==> t.lua[id].uv[k] in s.lua)
  }

  ghost predicate SameObj(s: State, t: State, i: LId)
    requires i in s.lua && i in t.lua
  {
    && t.lua[i].uv == s.lua[i].uv
    && (t.lua[i].body == s.lua[i].body || (s.lua[i].body.PoolB? && t.lua[i].body.PoolB?))
  }

  lemma ExtendsKept(s: State, t: State, id: LId)
    requires Extends(s, t, id)
    ensures forall w :: WrapperAt(t, w) && w != id ==> WrapperKept(s, t, w)
  {
  }

  lemma ExtendsRefs(s: State, t: State, id: LId)
    requires NoDangling(s) && Extends(s, t, id) && t.roots <= t.lua.Keys
    ensures NoDangling(t)
  {
    forall i, k | i in t.lua && k in t.lua[i].uv ensures t.lua[i].uv[k] in t.lua {
      if i != id { assert SameObj(s, t, i); }
    }
  }

  lemma ExtendsCache(s: State, t: State, id: LId)
    requires CacheExact(s) && Extends(s, t, id)
    requires if IsWrapper(t.lua[id].body)
             then t.lua[id].body.ptr !in s.cache && t.cache == s.cache[t.lua[id].body.ptr := id]
             else t.cache == s.cache
    ensures CacheExact(t)
  {
    forall w | WrapperAt(t, w) ensures t.lua[w].body.ptr in t.cache && t.cache[t.lua[w].body.ptr] == w {
      if w != id { assert SameObj(s, t, w); }
    }
    forall p | p in t.cache ensures WrapperAt(t, t.cache[p]) && t.lua[t.cache[p]].body.ptr == p {
      if t.cache[p] != id { assert SameObj(s, t, s.cache[p]); }
    }
  }

  lemma ExtendsIds(s: State, t: State, id: LId)
    requires Identities(s) && Extends(s, t, id) && id < s.next == t.next
    requires forall a :: a in s.group ==> a in t.group
    requires forall a :: a in t.group ==> a < t.next && t.group[a] < t.next
    requires t.lua[id].body.ArenaB? ==> id in t.group
    ensures Identities(t)
  {
    forall i | i in t.lua && t.lua[i].body.ArenaB? ensures i in t.group {
      if i != id { assert SameObj(s, t, i); }
    }
  }

  /** Taking a fresh identity or changing the roots to other live objects changes no arena. */
  lemma FramePending(s: State, t: State)
    requires MemInv(s) && ArenasKept(s, t) && t.pending == s.pending && s.roots <= t.roots
    requires forall p :: p in s.upb ==> p in t.upb && t.upb[p].owner == s.upb[p].owner
    requires forall w :: w in s.roots && WrapperAt(s, w) ==> WrapperAt(t, w) && WrapperKept(s, t, w)
    ensures PendingOk(t)
  {
    if s.pending.Some? {
      var (x, y) := s.pending.value;
      assert WrapperKept(s, t, x) && WrapperKept(s, t, y);
      assert ArenaKept(s, t, Arena(s, x)) && ArenaKept(s, t, s.upb[s.lua[x].body.ptr].owner);
      assert ArenaKept(s, t, Arena(s, y)) && ArenaKept(s, t, s.upb[s.lua[y].body.ptr].owner);
    }
  }

  lemma KeepBump(s: State, n: nat)
    requires MemInv(s)
    ensures MemInv(Bump(s, n))
  {
    var t := Bump(s, n);
    assert WrapperHoldsArena(t) by { SameArenas(s, t); FrameWrappers(s, t); }
    assert EdgesInGroup(t) by { SameArenas(s, t); FrameEdges(s, t); }
  }

  lemma KeepArena(s: State, a: LId)
    requires MemInv(s) && FreshId(s, a) && s.pending.None?
    ensures MemInv(AddArena(s, a))
    ensures ArenasKept(s, AddArena(s, a))
  {
    var t := AddArena(s, a);
    ArenaAdded(s, a);
    ExtendsRefs(s, t, a);
    ExtendsCache(s, t, a);
    ExtendsIds(s, t, a);
    assert WrapperHoldsArena(t) by { ExtendsKept(s, t, a); FrameWrappers(s, t); }
    assert EdgesInGroup(t) by { FrameEdges(s, t); }
  }

  lemma ArenaAdded(s: State, a: LId)
    requires FreshId(s, a) && s.pending.None?
    ensures ArenasKept(s, AddArena(s, a))
  {
    var t := AddArena(s, a);
    forall b | b in s.group ensures ArenaKept(s, t, b) {
      assert t.group[b] == s.group[b] != a;
    }
  }

  /** A new object without pointers may take any fresh address. */
  lemma KeepNewUpb(s: State, p: Ptr, o: Upb)
    requires MemInv(s) && FreshPtr(s, p) && o.owner in s.group && o.edges == map[]
    ensures MemInv(AddUpb(s, p, o))
  {
    var t := AddUpb(s, p, o);
    FreshNotCached(s, p);
    assert WrapperHoldsArena(t) by { SameArenas(s, t); FrameWrappers(s, t); }
    assert EdgesInGroup(t) by {
      SameArenas(s, t);
      FrameEdges(s, t);
    }
  }

  /** An object may be rewritten in place when its pointers stay within its group. */
  lemma KeepRewrite(s: State, p: Ptr, o: Upb)
    requires MemInv(s) && p in s.upb && o.owner == s.upb[p].owner
    requires forall l :: l in o.edges ==>
      (l in s.upb[p].edges && o.edges[l] == s.upb[p].edges[l]) || EdgeInGroup(s, p, o.edges[l])
    ensures MemInv(AddUpb(s, p, o))
  {
    var t := AddUpb(s, p, o);
    assert WrapperHoldsArena(t) by { SameArenas(s, t); FrameWrappers(s, t); }
    forall x | x in t.upb && !Released(t, t.upb[x].owner) ensures EdgesOf(t, x) {
      assert !Released(s, s.upb[x].owner) && EdgesOf(s, x);
      forall l | l in t.upb[x].edges ensures EdgeInGroup(t, x, t.upb[x].edges[l]) {
        assert EdgeInGroup(s, x, t.upb[x].edges[l]);
      }
    }
  }

  /** A new wrapper of an object that no live wrapper has, in an arena of the object's group. */
  lemma KeepWrapper(s: State, w: LId, body: Body, uv: map<int, LId>)
    requires MemInv(s) && FreshId(s, w) && IsWrapper(body) && s.pending.None?
    requires forall k :: k in uv ==> uv[k] in s.lua
    requires ARENA_INDEX in uv && s.lua[uv[ARENA_INDEX]].body.ArenaB?
    requires body.ptr in s.upb && Together(s, uv[ARENA_INDEX], s.upb[body.ptr].owner)
    requires body.ptr !in s.cache
    ensures MemInv(AddWrapper(s, w, body, uv))
  {
    var t := AddWrapper(s, w, body, uv);
    KeepPlain(s, t, w);
  }

  /** A new wrapper, or a new userdata that wraps no upb object. */
  lemma KeepPlain(s: State, t: State, id: LId)
    requires MemInv(s) && FreshId(s, id) && s.pending.None? && Extends(s, t, id)
    requires t.next == s.next && t.upb == s.upb && t.group == s.group && t.pending == s.pending
    requires s.roots <= t.roots <= t.lua.Keys
    requires !t.lua[id].body.ArenaB?
    requires if WrapperAt(t, id)
             then HoldsArena(t, id) && t.lua[id].body.ptr !in s.cache && t.cache == s.cache[t.lua[id].body.ptr := id]
             else t.cache == s.cache
    ensures MemInv(t)
  {
    ExtendsRefs(s, t, id);
    ExtendsCache(s, t, id);
    ExtendsIds(s, t, id);
    assert ArenasKept(s, t) by { SameArenas(s, t); }
    assert WrapperHoldsArena(t) by { ExtendsKept(s, t, id); FrameWrappers(s, t); }
    assert EdgesInGroup(t) by { FrameEdges(s, t); }
  }

  lemma KeepRoots(s: State, roots: set<LId>)
    requires MemInv(s) && roots <= s.lua.Keys
    requires s.pending.Some? ==> s.pending.value.0 in roots && s.pending.value.1 in roots
    ensures MemInv(s.(roots := roots))
  {
    var t := s.(roots := roots);
    assert WrapperHoldsArena(t) by { SameArenas(s, t); FrameWrappers(s, t); }
    assert EdgesInGroup(t) by { SameArenas(s, t); FrameEdges(s, t); }
  }

  /** Fusing two arenas that are still alive. */
  lemma KeepFuse(s: State, to: LId, from: LId)
    requires MemInv(s) && s.pending.None?
    requires to in s.lua && to in s.group && from in s.lua && from in s.group
    ensures MemInv(Fuse(s, to, from)) && Together(Fuse(s, to, from), to, from)
    ensures forall a, b :: Together(s, a, b) ==> Together(Fuse(s, to, from), a, b)
  {
    var t := Fuse(s, to, from);
    forall w | WrapperAt(t, w) ensures HoldsArena(t, w) {
      assert WrapperAt(s, w) && HoldsArena(s, w);
    }
    forall p | p in t.upb && !Released(t, t.upb[p].owner) ensures EdgesOf(t, p) {
      FuseReleased(s, to, from, t.upb[p].owner);
      assert EdgesOf(s, p);
      forall l | l in t.upb[p].edges ensures EdgeInGroup(t, p, t.upb[p].edges[l]) {
        assert EdgeInGroup(s, p, s.upb[p].edges[l]);
      }
    }
  }

  lemma FuseReleased(s: State, to: LId, from: LId, a: LId)
    requires to in s.lua && to in s.group && from in s.lua && from in s.group
    ensures Released(Fuse(s, to, from), a) == Released(s, a)
  {
    var t := Fuse(s, to, from);
    if a in s.group && !Released(s, a) {
      var b :| b in s.group && s.group[b] == s.group[a] && b in s.lua;
      assert b in t.group && t.group[b] == t.group[a];
    }
    if a in s.group && !Released(t, a) {
      var b :| b in t.group && t.group[b] == t.group[a] && b in t.lua;
      if s.group[a] == s.group[from] || s.group[a] == s.group[to] {
        assert !Released(s, to) && !Released(s, from);
      } else {
        assert s.group[b] == s.group[a];
      }
    }
  }

  /** From a write to its fuse the two groups count as one: both wrappers are
      on the stack, so neither group can be released in between. */
  lemma KeepPend(s: State, x: LId, y: LId)
    requires MemInv(s) && s.pending.None? && HeldWrapper(s, x) && HeldWrapper(s, y)
    ensures MemInv(s.(pending := Some((x, y))))
    ensures Together(s.(pending := Some((x, y))), Arena(s, x), Arena(s, y))
  {
    var t := s.(pending := Some((x, y)));
    assert forall a, b :: Together(s, a, b) ==> Together(t, a, b);
    forall w | WrapperAt(t, w) ensures HoldsArena(t, w) {
      assert WrapperAt(s, w) && HoldsArena(s, w);
    }
    forall p | p in t.upb && !Released(t, t.upb[p].owner) ensures EdgesOf(t, p) {
      assert EdgesOf(s, p) && !Released(s, s.upb[p].owner);
      forall l | l in t.upb[p].edges ensures EdgeInGroup(t, p, t.upb[p].edges[l]) {
        assert EdgeInGroup(s, p, s.upb[p].edges[l]);
      }
    }
  }

  lemma KeepFinish(s: State)
    requires MemInv(s) && s.pending.Some?
    ensures MemInv(FinishWrite(s))
  {
    var (x, y) := s.pending.value;
    var t := FinishWrite(s);
    assert forall a :: a in s.group ==> t.group[a] == GroupOf(s, a);
    assert forall a, b :: Together(s, a, b) ==> Together(t, a, b);
    forall w | WrapperAt(t, w) ensures HoldsArena(t, w) {
      assert WrapperAt(s, w) && HoldsArena(s, w);
    }
    forall p | p in t.upb && !Released(t, t.upb[p].owner) ensures EdgesOf(t, p) {
      FuseReleased(s, Arena(s, x), Arena(s, y), t.upb[p].owner);
      assert Released(t, t.upb[p].owner) == Released(Fuse(s, Arena(s, x), Arena(s, y)), t.upb[p].owner);
      assert EdgesOf(s, p);
      forall l | l in t.upb[p].edges ensures EdgeInGroup(t, p, t.upb[p].edges[l]) {
        assert EdgeInGroup(s, p, s.upb[p].edges[l]);
      }
    }
  }

  /** The collector keeps the invariant, between a write and its fuse too. */
  lemma KeepCollect(s: State, dead: set<LId>)
    requires MemInv(s) && Garbage(s, dead)
    ensures MemInv(Collect(s, dead))
  {
    var t := Collect(s, dead);
    CollectKeepsArenas(s, dead);
    CollectCache(s, dead);
    CollectRefs(s, dead);
    assert PendingOk(t) by { CollectKeepsWrappers(s, dead); FramePending(s, t); }
    assert WrapperHoldsArena(t) by { CollectKeepsWrappers(s, dead); FrameWrappers(s, t); }
    assert EdgesInGroup(t) by { FrameEdges(s, t); }
  }

  lemma CollectKeepsWrappers(s: State, dead: set<LId>)
    requires WrapperHoldsArena(s) && Garbage(s, dead)
    ensures forall w :: WrapperAt(Collect(s, dead), w) ==> WrapperKept(s, Collect(s, dead), w)
  {
    forall w | WrapperAt(Collect(s, dead), w) ensures WrapperKept(s, Collect(s, dead), w) {
      assert WrapperAt(s, w) && HoldsArena(s, w) && w !in dead;
      assert s.lua[w].uv[ARENA_INDEX] !in dead;
    }
  }

  lemma CollectKeepsArenas(s: State, dead: set<LId>)
    requires PendingOk(s) && Garbage(s, dead)
    ensures ArenasKept(s, Collect(s, dead))
  {
  }

  lemma CollectRefs(s: State, dead: set<LId>)
    requires NoDangling(s) && Garbage(s, dead)
    ensures NoDangling(Collect(s, dead))
  {
  }

  lemma CollectCache(s: State, dead: set<LId>)
    requires CacheExact(s)
    ensures CacheExact(Collect(s, dead))
  {
  }
}
