/** Any number of pools and handles under any sequence of operations: who owns what. Objects are
    numbered in the order of their creation. */
module PoolRuns {
  import opened Messages
  import opened PoolSpec

  type Slot = Option<nat>
  type PoolN = PoolState<nat>
  type Handle = HandleState<nat, nat>

  datatype World = World(
    pools: seq<PoolN>,
    handles: seq<Option<Handle>>,      // `None` once the handle has been destroyed
    destroyed: multiset<Slot>,         // what pools and handles have let go, null slots included
    created: nat)

  datatype Op =
    | Get(p: nat)
    | MoveConstruct(src: nat)
    | MoveAssign(dst: nat, src: nat)
    | Destroy(h: nat)
    | SetPool(h: nat, pool: Option<nat>)     // `release` when it is `None`
    | Drop(p: nat, keep: nat)
    | SetMaximumSize(p: nat, size: nat)

  predicate Live(w: World, h: nat) {
    h < |w.handles| && w.handles[h].Some? &&
    (w.handles[h].value.pool.Some? ==> w.handles[h].value.pool.value < |w.pools|)
  }

  predicate Enabled(w: World, op: Op) {
    match op
    case Get(p) => p < |w.pools|
    case MoveConstruct(src) => Live(w, src)
    case MoveAssign(dst, src) => Live(w, dst) && Live(w, src)
    case Destroy(h) => Live(w, h)
    case SetPool(h, pool) => Live(w, h) && (pool.Some? ==> pool.value < |w.pools|)
    case Drop(p, _) => p < |w.pools|
    case SetMaximumSize(p, _) => p < |w.pools|
  }

  function SetHandle(w: World, h: nat, v: Option<Handle>): World
    requires h < |w.handles|
  {
    w.(handles := w.handles[h := v])
  }

  /** `doUnlink` of handle `h`. */
  function Unlink(w: World, h: nat): (r: World)
    requires Live(w, h)
    ensures |r.handles| == |w.handles| && |r.pools| == |w.pools| && Live(r, h)
  {
    var hs := w.handles[h].value;
    if hs.pool.None? then w
    else
      var p := hs.pool.value;
      w.(pools := w.pools[p := AfterUnlink(hs, w.pools[p])],
         handles := w.handles[h := Some(Unlinked(hs, w.pools[p]))])
  }

  /** What handle `h` owns is destroyed. */
  function Discard(w: World, h: nat): World
    requires Live(w, h)
  {
    var hs := w.handles[h].value;
    SetHandle(w, h, Some(hs.(owned := None)))
      .(destroyed := w.destroyed + if hs.owned.Some? then multiset{hs.owned} else multiset{})
  }

  /** What `src` owns and its pool pointer go to `dst`, which owns nothing. */
  function Transfer(w: World, dst: nat, src: nat): World
    requires Live(w, dst) && Live(w, src)
  {
    var hs := w.handles[src].value;
    SetHandle(SetHandle(w, dst, Some(hs)), src, Some(MovedFrom(hs)))
  }

  function Shrink(w: World, p: nat, q: PoolN, keep: nat): World
    requires p < |w.pools|
  {
    w.(pools := w.pools[p := Keep(q, keep)], destroyed := w.destroyed + multiset(Dropped(q, keep)))
  }

  function Apply(w: World, op: Op): World
    requires Enabled(w, op)
  {
    match op
    case Get(p) =>
      var (q, slot) := Take(w.pools[p]);
      if slot.None? then
        w.(handles := w.handles + [Some(HandleState(Some(w.created), Some(p)))], created := w.created + 1)
      else
        w.(pools := w.pools[p := q], handles := w.handles + [Some(HandleState(slot.value, Some(p)))])
    case MoveConstruct(src) =>
      var hs := w.handles[src].value;
      w.(handles := w.handles[src := Some(MovedFrom(hs))] + [Some(hs)])
    case MoveAssign(dst, src) =>
      if w.handles[dst].value.owned == w.handles[src].value.owned then w
      else Transfer(Discard(Unlink(w, dst), dst), dst, src)
    case Destroy(h) => SetHandle(Discard(Unlink(w, h), h), h, None)
    case SetPool(h, pool) => SetHandle(w, h, Some(w.handles[h].value.(pool := pool)))
    case Drop(p, keep) => Shrink(w, p, w.pools[p], keep)
    case SetMaximumSize(p, size) => Shrink(w, p, w.pools[p].(maxSpare := size), size)
  }

  predicate Legal(w: World, ops: seq<Op>)
    decreases ops
  {
    ops == [] || (Enabled(w, ops[0]) && Legal(Apply(w, ops[0]), ops[1..]))
  }

  function After(w: World, ops: seq<Op>): World
    requires Legal(w, ops)
    decreases ops
  {
    if ops == [] then w else After(Apply(w, ops[0]), ops[1..])
  }

  /** Empty pools of the given limits, no handle and no object. */
  function Init(limits: seq<nat>): World {
    World(seq(|limits|, i requires 0 <= i < |limits| => PoolState([], limits[i])), [], multiset{}, 0)
  }

  // ------------------------------------------------------------------ what the operations do

  function Given(x: Slot): multiset<Slot> {
    if x.Some? then multiset{x} else multiset{}
  }

  /** The world after what `h` owns has left it: to the end of the free list of its pool, if it is linked
      and there is room, or else destroyed; `rest` is what becomes of the handles. */
  predicate Leaves(w: World, w': World, h: nat, rest: seq<Option<Handle>>)
    requires Live(w, h)
  {
    var hs := w.handles[h].value;
    && w'.handles == rest && w'.created == w.created
    && if hs.pool.Some? && (w.pools[hs.pool.value].maxSpare == 0 ||
                            |w.pools[hs.pool.value].free| < w.pools[hs.pool.value].maxSpare)
       then
         && w'.destroyed == w.destroyed
         && w'.pools == w.pools[hs.pool.value :=
              PoolState(w.pools[hs.pool.value].free + [hs.owned], w.pools[hs.pool.value].maxSpare)]
       else w'.pools == w.pools && w'.destroyed == w.destroyed + Given(hs.owned)
  }

  lemma DestroyReturns(w: World, h: nat)
    requires Live(w, h)
    ensures Leaves(w, Apply(w, Destroy(h)), h, w.handles[h := None])
  {
  }

  /** An assignment between handles that own the same, the same handle or two empty ones, does nothing;
      otherwise the target gets object and pool of the source, which stays linked and empty. */
  lemma MoveAssignTransfers(w: World, dst: nat, src: nat)
    requires Live(w, dst) && Live(w, src)
    ensures var w', hs := Apply(w, MoveAssign(dst, src)), w.handles[src].value;
      if w.handles[dst].value.owned == hs.owned then w' == w
      else Leaves(w, w', dst, w.handles[dst := Some(hs)][src := Some(HandleState(None, hs.pool))])
  {
    var hs := w.handles[src].value;
    if w.handles[dst].value.owned != hs.owned {
      var w1 := Discard(Unlink(w, dst), dst);
      assert Transfer(w1, dst, src).handles == w.handles[dst := Some(hs)][src := Some(HandleState(None, hs.pool))];
    }
  }

  lemma MoveConstructTransfers(w: World, src: nat)
    requires Live(w, src)
    ensures var hs := w.handles[src].value;
      Apply(w, MoveConstruct(src)) ==
        w.(handles := w.handles[src := Some(HandleState(None, hs.pool))] + [Some(hs)])
  {
  }

  /** A get links a new handle to its pool; it owns the last slot of the free list or a new object. */
  lemma GetTakesTheLast(w: World, p: nat)
    requires p < |w.pools|
    ensures var w', free := Apply(w, Get(p)), w.pools[p].free;
      && |w'.handles| == |w.handles| + 1 && w'.handles[..|w.handles|] == w.handles && w'.destroyed == w.destroyed
      && w'.handles[|w.handles|] ==
           Some(HandleState(if free == [] then Some(w.created) else free[|free| - 1], Some(p)))
      && (if free == [] then w'.created == w.created + 1 && w'.pools == w.pools
          else w'.created == w.created && |w'.pools| == |w.pools|
               && w'.pools[p].free + [free[|free| - 1]] == free && w'.pools[p].maxSpare == w.pools[p].maxSpare
               && forall q :: 0 <= q < |w.pools| && q != p ==> w'.pools[q] == w.pools[q])
  {
  }

  /** `drop` and `setMaximumSize` keep the oldest slots, as many as they are told, and destroy the rest. */
  lemma ShrinkKeepsTheOldest(w: World, p: nat, n: nat)
    requires p < |w.pools|
    ensures var free := w.pools[p].free;
      var k := if n < |free| then n else |free|;
      && Apply(w, Drop(p, n)) ==
           w.(pools := w.pools[p := PoolState(free[..k], w.pools[p].maxSpare)],
              destroyed := w.destroyed + multiset(free[k..]))
      && Apply(w, SetMaximumSize(p, n)) ==
           w.(pools := w.pools[p := PoolState(free[..k], n)], destroyed := w.destroyed + multiset(free[k..]))
  {
    assert w.pools[p].free[..|w.pools[p].free|] == w.pools[p].free;
    assert w.pools[p := w.pools[p]] == w.pools;
  }

  /** A released handle takes its object with it: no free list changes when it is destroyed. */
  lemma ReleaseThenDestroy(w: World, h: nat)
    requires Live(w, h)
    ensures Live(Apply(w, SetPool(h, None)), h)
    ensures var w' := Apply(Apply(w, SetPool(h, None)), Destroy(h));
      && w'.pools == w.pools && w'.created == w.created
      && w'.destroyed == w.destroyed + Given(w.handles[h].value.owned)
      && w'.handles == w.handles[h := None]
  {
    assert w.handles[h := Some(w.handles[h].value.(pool := None))][h := None] == w.handles[h := None];
  }

  /** And one that is given a pool leaves it there. */
  lemma LinkThenDestroy(w: World, h: nat, p: nat)
    requires Live(w, h) && p < |w.pools|
    ensures Live(Apply(w, SetPool(h, Some(p))), h)
    ensures var w1 := Apply(w, SetPool(h, Some(p)));
      && w1.pools == w.pools && w1.handles[h].value == HandleState(w.handles[h].value.owned, Some(p))
      && Leaves(w1, Apply(w1, Destroy(h)), h, w.handles[h := None])
  {
    var w1 := Apply(w, SetPool(h, Some(p)));
    DestroyReturns(w1, h);
    assert w1.handles[h := None] == w.handles[h := None];
  }

  // ------------------------------------------------------------------ where the objects are

  /** How often `x` occurs in the free lists; `x` may be the null slot. */
  function InPools(pools: seq<PoolN>, x: Slot): nat {
    if pools == [] then 0
    else InPools(pools[..|pools| - 1], x) + multiset(pools[|pools| - 1].free)[x]
  }

  function OwnedBy(h: Option<Handle>): Slot {
    if h.Some? then h.value.owned else None
  }

  function One(b: bool): nat {
    if b then 1 else 0
  }

  /** What handles are counted by: owning a given slot, or being linked to a pool with nothing to return. */
  datatype Mark = Owns(x: Slot) | Hollow

  predicate Has(h: Option<Handle>, m: Mark) {
    match m
    case Owns(x) => OwnedBy(h) == x
    case Hollow => h.Some? && h.value.owned.None? && h.value.pool.Some?
  }

  function InHandles(handles: seq<Option<Handle>>, m: Mark): nat {
    if handles == [] then 0
    else InHandles(handles[..|handles| - 1], m) + One(Has(handles[|handles| - 1], m))
  }

  /** In how many places `x` is: free slots, handles, or destroyed. */
  function Places(w: World, x: Slot): nat {
    InPools(w.pools, x) + InHandles(w.handles, Owns(x)) + w.destroyed[x]
  }

  lemma {:induction false} PoolsUpdate(pools: seq<PoolN>, p: nat, q: PoolN, x: Slot)
    requires p < |pools|
    ensures InPools(pools[p := q], x) + multiset(pools[p].free)[x] == InPools(pools, x) + multiset(q.free)[x]
  {
    var n := |pools| - 1;
    if p < n {
      PoolsUpdate(pools[..n], p, q, x);
      assert pools[p := q][..n] == pools[..n][p := q];
    } else {
      assert pools[p := q][..n] == pools[..n];
    }
  }

  lemma {:induction false} HandlesUpdate(handles: seq<Option<Handle>>, h: nat, v: Option<Handle>, m: Mark)
    requires h < |handles|
    ensures InHandles(handles[h := v], m) + One(Has(handles[h], m)) == InHandles(handles, m) + One(Has(v, m))
  {
    var n := |handles| - 1;
    if h < n {
      HandlesUpdate(handles[..n], h, v, m);
      assert handles[h := v][..n] == handles[..n][h := v];
    } else {
      assert handles[h := v][..n] == handles[..n];
    }
  }

  lemma HandlesAppend(handles: seq<Option<Handle>>, v: Option<Handle>, m: Mark)
    ensures InHandles(handles + [v], m) == InHandles(handles, m) + One(Has(v, m))
  {
    assert (handles + [v])[..|handles|] == handles;
  }

  lemma UnlinkMoves(w: World, h: nat, x: Slot)
    requires Live(w, h) && x.Some?
    ensures Places(Unlink(w, h), x) == Places(w, x)
  {
    var hs := w.handles[h].value;
    if hs.pool.Some? {
      var p := hs.pool.value;
      PoolsUpdate(w.pools, p, AfterUnlink(hs, w.pools[p]), x);
      HandlesUpdate(w.handles, h, Some(Unlinked(hs, w.pools[p])), Owns(x));
    }
  }

  lemma DiscardMoves(w: World, h: nat, x: Slot)
    requires Live(w, h) && x.Some?
    ensures Places(Discard(w, h), x) == Places(w, x)
  {
    HandlesUpdate(w.handles, h, Some(w.handles[h].value.(owned := None)), Owns(x));
  }

  lemma TransferMoves(w: World, dst: nat, src: nat, x: Slot)
    requires Live(w, dst) && Live(w, src) && w.handles[dst].value.owned == None && dst != src && x.Some?
    ensures Places(Transfer(w, dst, src), x) == Places(w, x)
  {
    var hs := w.handles[src].value;
    HandlesUpdate(w.handles, dst, Some(hs), Owns(x));
    HandlesUpdate(w.handles[dst := Some(hs)], src, Some(MovedFrom(hs)), Owns(x));
  }

  lemma ShrinkMoves(w: World, p: nat, q: PoolN, keep: nat, x: Slot)
    requires p < |w.pools| && q.free == w.pools[p].free
    ensures Places(Shrink(w, p, q, keep), x) == Places(w, x)
  {
    PoolsUpdate(w.pools, p, Keep(q, keep), x);
    assert q.free == Keep(q, keep).free + Dropped(q, keep);
  }

  lemma LastSlot(free: seq<Slot>, x: Slot)
    requires free != []
    ensures multiset(free)[x] == multiset(free[..|free| - 1])[x] + One(free[|free| - 1] == x)
  {
    assert free == free[..|free| - 1] + [free[|free| - 1]];
  }

  /** A get that takes the last slot. */
  lemma ReuseMoves(w: World, p: nat, x: Slot)
    requires p < |w.pools| && w.pools[p].free != []
    ensures Places(Apply(w, Get(p)), x) == Places(w, x)
  {
    var free := w.pools[p].free;
    var last := |free| - 1;
    HandlesAppend(w.handles, Some(HandleState(free[last], Some(p))), Owns(x));
    PoolsUpdate(w.pools, p, w.pools[p].(free := free[..last]), x);
    LastSlot(free, x);
  }

  lemma GetMoves(w: World, p: nat, x: Slot)
    requires p < |w.pools|
    ensures Places(Apply(w, Get(p)), x) ==
            Places(w, x) + One(w.pools[p].free == [] && x == Some(w.created))
  {
    if w.pools[p].free == [] {
      HandlesAppend(w.handles, Some(HandleState(Some(w.created), Some(p))), Owns(x));
    } else {
      ReuseMoves(w, p, x);
    }
  }

  lemma MoveConstructMoves(w: World, src: nat, x: Slot)
    requires Live(w, src) && x.Some?
    ensures Places(Apply(w, MoveConstruct(src)), x) == Places(w, x)
  {
    var hs := w.handles[src].value;
    HandlesUpdate(w.handles, src, Some(MovedFrom(hs)), Owns(x));
    HandlesAppend(w.handles[src := Some(MovedFrom(hs))], Some(hs), Owns(x));
  }

  lemma StepMoves(w: World, op: Op, x: Slot)
    requires Enabled(w, op) && x.Some?
    ensures Places(Apply(w, op), x) ==
            Places(w, x) + One(op.Get? && w.pools[op.p].free == [] && x == Some(w.created))
  {
    match op
    case Get(p) => GetMoves(w, p, x);
    case MoveConstruct(src) => MoveConstructMoves(w, src, x);
    case MoveAssign(dst, src) =>
      if w.handles[dst].value.owned != w.handles[src].value.owned {
        var w1 := Unlink(w, dst);
        UnlinkMoves(w, dst, x);
        DiscardMoves(w1, dst, x);
        TransferMoves(Discard(w1, dst), dst, src, x);
      }
    case Destroy(h) =>
      var w1 := Unlink(w, h);
      UnlinkMoves(w, h, x);
      DiscardMoves(w1, h, x);
      HandlesUpdate(Discard(w1, h).handles, h, None, Owns(x));
    case SetPool(h, pool) =>
      HandlesUpdate(w.handles, h, Some(w.handles[h].value.(pool := pool)), Owns(x));
    case Drop(p, keep) => ShrinkMoves(w, p, w.pools[p], keep, x);
    case SetMaximumSize(p, size) => ShrinkMoves(w, p, w.pools[p].(maxSpare := size), size, x);
  }

  /** Each object ever created is in exactly one place, and there are no others. */
  ghost predicate Conserved(w: World) {
    forall id: nat :: Places(w, Some(id)) == One(id < w.created)
  }

  /** Only a get from an empty free list makes an object. */
  lemma StepCreates(w: World, op: Op)
    requires Enabled(w, op)
    ensures Apply(w, op).created == w.created + One(op.Get? && w.pools[op.p].free == [])
  {
    match op
    case MoveAssign(dst, src) =>
      if w.handles[dst].value.owned != w.handles[src].value.owned {
        var w1 := Unlink(w, dst);
        assert w1.created == w.created;
      }
    case Destroy(h) =>
      var w1 := Unlink(w, h);
      assert w1.created == w.created;
    case _ =>
  }

  lemma StepConservesOne(w: World, op: Op, id: nat)
    requires Enabled(w, op) && Places(w, Some(id)) == One(id < w.created)
    ensures Places(Apply(w, op), Some(id)) == One(id < Apply(w, op).created)
  {
    StepMoves(w, op, Some(id));
    StepCreates(w, op);
  }

  lemma StepConserves(w: World, op: Op)
    requires Conserved(w) && Enabled(w, op)
    ensures Conserved(Apply(w, op))
  {
    forall id: nat
      ensures Places(Apply(w, op), Some(id)) == One(id < Apply(w, op).created)
    {
      StepConservesOne(w, op, id);
    }
  }

  /** Ownership is conserved: over every sequence of operations on any number of pools and handles,
      moves to itself and to the handle of another pool included, each object ever created is in one
      slot of one free list, or owned by one handle, or destroyed once. */
  lemma {:induction false} OwnershipIsConserved(w: World, ops: seq<Op>)
    requires Conserved(w) && Legal(w, ops)
    ensures Conserved(After(w, ops))
    decreases ops
  {
    if ops != [] {
      StepConserves(w, ops[0]);
      OwnershipIsConserved(Apply(w, ops[0]), ops[1..]);
    }
  }

  lemma {:induction false} InitConserved(limits: seq<nat>)
    ensures Conserved(Init(limits))
  {
    forall id: nat
      ensures InPools(Init(limits).pools, Some(id)) == 0
    {
      NoSlots(Init(limits).pools, Some(id));
    }
  }

  lemma {:induction false} NoSlots(pools: seq<PoolN>, x: Slot)
    requires forall p :: 0 <= p < |pools| ==> pools[p].free == []
    ensures InPools(pools, x) == 0
  {
    if pools != [] {
      NoSlots(pools[..|pools| - 1], x);
    }
  }

  // ------------------------------------------------------------------ and how many there are

  function FreeBag(pools: seq<PoolN>): multiset<Slot> {
    if pools == [] then multiset{} else FreeBag(pools[..|pools| - 1]) + multiset(pools[|pools| - 1].free)
  }

  function HandleBag(handles: seq<Option<Handle>>): multiset<Slot> {
    if handles == [] then multiset{}
    else HandleBag(handles[..|handles| - 1]) + multiset{OwnedBy(handles[|handles| - 1])}
  }

  /** The number of objects in a bag of slots, null slots not counted. */
  function Objects(bag: multiset<Slot>): nat {
    |bag[None := 0]|
  }

  lemma {:induction false} FreeBagCounts(pools: seq<PoolN>, x: Slot)
    ensures FreeBag(pools)[x] == InPools(pools, x)
  {
    if pools != [] { FreeBagCounts(pools[..|pools| - 1], x); }
  }

  lemma {:induction false} HandleBagCounts(handles: seq<Option<Handle>>, x: Slot)
    ensures HandleBag(handles)[x] == InHandles(handles, Owns(x))
  {
    if handles != [] { HandleBagCounts(handles[..|handles| - 1], x); }
  }

  lemma {:induction false} Exactly(bag: multiset<Slot>, n: nat)
    requires bag[None] == 0 && forall id: nat :: bag[Some(id)] == One(id < n)
    ensures |bag| == n
  {
    if n == 0 {
      forall x: Slot
        ensures bag[x] == 0
      {
        if x.Some? { assert bag[Some(x.value)] == 0; }
      }
      assert bag == multiset{};
    } else {
      assert bag[Some(n - 1)] == 1;
      var rest := bag - multiset{Some(n - 1)};
      Exactly(rest, n - 1);
      assert bag == rest + multiset{Some(n - 1)};
    }
  }

  lemma BagsArePlaces(w: World, x: Slot)
    ensures FreeBag(w.pools)[x] + HandleBag(w.handles)[x] + w.destroyed[x] == Places(w, x)
  {
    FreeBagCounts(w.pools, x);
    HandleBagCounts(w.handles, x);
  }

  lemma Counted(w: World)
    requires Conserved(w)
    ensures w.created == Objects(FreeBag(w.pools)) + Objects(HandleBag(w.handles)) + Objects(w.destroyed)
  {
    var free, held, gone := FreeBag(w.pools), HandleBag(w.handles), w.destroyed;
    var all := free[None := 0] + held[None := 0] + gone[None := 0];
    forall id: nat
      ensures all[Some(id)] == One(id < w.created)
    {
      BagsArePlaces(w, Some(id));
      assert Places(w, Some(id)) == One(id < w.created);
    }
    Exactly(all, w.created);
  }

  /** created = free + held + destroyed, at the end of every sequence of operations. */
  lemma NothingIsLost(limits: seq<nat>, ops: seq<Op>)
    requires Legal(Init(limits), ops)
    ensures var w := After(Init(limits), ops);
      w.created == Objects(FreeBag(w.pools)) + Objects(HandleBag(w.handles)) + Objects(w.destroyed)
  {
    InitConserved(limits);
    OwnershipIsConserved(Init(limits), ops);
    Counted(After(Init(limits), ops));
  }

  // ------------------------------------------------------------------ null slots

  function Nulls(w: World): nat {
    InPools(w.pools, None)
  }

  function Hollows(w: World): nat {
    InHandles(w.handles, Hollow)
  }

  /** The operation unlinks a hollow handle and the pool takes what it gets: a null. */
  predicate ReturnsNull(w: World, op: Op)
    requires Enabled(w, op)
  {
    match op
    case Destroy(h) => UnlinksHollow(w, h)
    case MoveAssign(dst, src) =>
      w.handles[dst].value.owned != w.handles[src].value.owned && UnlinksHollow(w, dst)
    case _ => false
  }

  predicate UnlinksHollow(w: World, h: nat)
    requires Live(w, h)
  {
    Has(w.handles[h], Hollow) && Accepts(w.pools[w.handles[h].value.pool.value])
  }

  /** The operation leaves behind a linked handle that owns nothing: a move from a linked handle, or
      linking a handle that is empty. */
  predicate MakesHollow(w: World, op: Op)
    requires Enabled(w, op)
  {
    match op
    case MoveConstruct(src) => w.handles[src].value.pool.Some?
    case MoveAssign(dst, src) =>
      w.handles[dst].value.owned != w.handles[src].value.owned && w.handles[src].value.pool.Some?
    case SetPool(h, pool) => pool.Some? && w.handles[h].value.owned.None?
    case _ => false
  }

  lemma UnlinkNulls(w: World, h: nat)
    requires Live(w, h)
    ensures Nulls(Unlink(w, h)) == Nulls(w) + One(UnlinksHollow(w, h))
  {
    var hs := w.handles[h].value;
    if hs.pool.Some? {
      var p := hs.pool.value;
      PoolsUpdate(w.pools, p, AfterUnlink(hs, w.pools[p]), None);
    }
  }

  lemma ShrinkNulls(w: World, p: nat, q: PoolN, keep: nat)
    requires p < |w.pools| && q.free == w.pools[p].free
    ensures Nulls(Shrink(w, p, q, keep)) <= Nulls(w)
  {
    PoolsUpdate(w.pools, p, Keep(q, keep), None);
    assert q.free == Keep(q, keep).free + Dropped(q, keep);
  }

  /** Null slots enter the free lists one at a time, and only by unlinking a hollow handle. */
  lemma NullsEnterOnlyByHollowReturns(w: World, op: Op)
    requires Enabled(w, op)
    ensures Nulls(Apply(w, op)) <= Nulls(w) + 1
    ensures Nulls(Apply(w, op)) > Nulls(w) <==> ReturnsNull(w, op)
  {
    match op
    case Get(p) =>
      var (q, slot) := Take(w.pools[p]);
      PoolsUpdate(w.pools, p, q, None);
      if slot.Some? { assert w.pools[p].free == q.free + [slot.value]; }
    case MoveAssign(dst, src) => UnlinkNulls(w, dst);
    case Destroy(h) => UnlinkNulls(w, h);
    case Drop(p, keep) => ShrinkNulls(w, p, w.pools[p], keep);
    case SetMaximumSize(p, size) => ShrinkNulls(w, p, w.pools[p].(maxSpare := size), size);
    case _ =>
  }

  predicate EverNull(w: World, ops: seq<Op>)
    requires Legal(w, ops)
    decreases ops
  {
    Nulls(w) > 0 || (ops != [] && EverNull(Apply(w, ops[0]), ops[1..]))
  }

  predicate EverReturnsNull(w: World, ops: seq<Op>)
    requires Legal(w, ops)
    decreases ops
  {
    ops != [] && (ReturnsNull(w, ops[0]) || EverReturnsNull(Apply(w, ops[0]), ops[1..]))
  }

  /** A free list comes to hold a null during a run if and only if, at some step, a handle that owns
      nothing but still has its pool pointer is destroyed or assigned to while the pool has room. */
  lemma {:induction false} NullSlotsIff(w: World, ops: seq<Op>)
    requires Legal(w, ops) && Nulls(w) == 0
    ensures EverNull(w, ops) <==> EverReturnsNull(w, ops)
    decreases ops
  {
    if ops != [] {
      NullsEnterOnlyByHollowReturns(w, ops[0]);
      if !ReturnsNull(w, ops[0]) {
        NullSlotsIff(Apply(w, ops[0]), ops[1..]);
      }
    }
  }

  /** A get from pool `p` would hand out a handle that owns nothing: */
  predicate GetFails(w: World, p: nat)
    requires p < |w.pools|
  {
    LastHandle(Apply(w, Get(p))).value.owned.None?
  }

  function LastHandle(w: World): Option<Handle> {
    if w.handles == [] then None else w.handles[|w.handles| - 1]
  }

  /** ... a null is the last slot of its free list. */
  lemma GetFailsOnNull(w: World, p: nat)
    requires p < |w.pools|
    ensures var free := w.pools[p].free;
      GetFails(w, p) <==> free != [] && free[|free| - 1] == None
  {
  }

  predicate SomeGetFails(w: World) {
    exists p :: 0 <= p < |w.pools| && GetFails(w, p)
  }

  /** At some point of the run a get would hand out a handle that owns nothing. */
  predicate EverGetFails(w: World, ops: seq<Op>)
    requires Legal(w, ops)
    decreases ops
  {
    SomeGetFails(w) || (ops != [] && EverGetFails(Apply(w, ops[0]), ops[1..]))
  }

  lemma FailingGetNeedsNull(w: World)
    requires SomeGetFails(w)
    ensures Nulls(w) > 0
  {
    var p :| 0 <= p < |w.pools| && GetFails(w, p);
    GetFailsOnNull(w, p);
    if Nulls(w) == 0 { NoNullSlot(w.pools, p); }
  }

  lemma UnlinkReturnsNull(w: World, h: nat)
    requires Live(w, h) && UnlinksHollow(w, h)
    ensures SomeGetFails(Unlink(w, h))
  {
    var p := w.handles[h].value.pool.value;
    GetFailsOnNull(Unlink(w, h), p);
  }

  lemma SameListsFailAlike(w: World, w': World)
    requires SomeGetFails(w) && w'.pools == w.pools
    ensures SomeGetFails(w')
  {
    var p :| 0 <= p < |w.pools| && GetFails(w, p);
    GetFailsOnNull(w, p);
    GetFailsOnNull(w', p);
  }

  /** A null that has just been returned is what the next get takes. */
  lemma ReturnedNullFails(w: World, op: Op)
    requires Enabled(w, op) && ReturnsNull(w, op)
    ensures SomeGetFails(Apply(w, op))
  {
    var h := if op.Destroy? then op.h else op.dst;
    UnlinkReturnsNull(w, h);
    SameListsFailAlike(Unlink(w, h), Apply(w, op));
  }

  /** At some point of a run a get would hand out a handle that owns nothing if and only if, at some
      step, a handle that owns nothing but still has its pool pointer is destroyed or assigned to while
      the pool has room. */
  lemma {:induction false} GetsFailIff(w: World, ops: seq<Op>)
    requires Legal(w, ops) && Nulls(w) == 0
    ensures EverGetFails(w, ops) <==> EverReturnsNull(w, ops)
    decreases ops
  {
    if SomeGetFails(w) { FailingGetNeedsNull(w); }
    if ops != [] {
      var w1 := Apply(w, ops[0]);
      if ReturnsNull(w, ops[0]) {
        ReturnedNullFails(w, ops[0]);
        assert EverGetFails(w1, ops[1..]);
      } else {
        NullsEnterOnlyByHollowReturns(w, ops[0]);
        GetsFailIff(w1, ops[1..]);
      }
    }
  }

  /** How many operations of a run leave a hollow handle behind. */
  function Hollowings(w: World, ops: seq<Op>): nat
    requires Legal(w, ops)
    decreases ops
  {
    if ops == [] then 0
    else One(MakesHollow(w, ops[0])) + Hollowings(Apply(w, ops[0]), ops[1..])
  }

  lemma UnlinkHollows(w: World, h: nat)
    requires Live(w, h)
    ensures Hollows(Unlink(w, h)) + One(UnlinksHollow(w, h)) == Hollows(w)
  {
    var hs := w.handles[h].value;
    if hs.pool.Some? {
      HandlesUpdate(w.handles, h, Some(Unlinked(hs, w.pools[hs.pool.value])), Hollow);
    }
  }

  lemma GetHollows(w: World, p: nat)
    requires p < |w.pools|
    ensures Nulls(Apply(w, Get(p))) + Hollows(Apply(w, Get(p))) == Nulls(w) + Hollows(w)
  {
    var free := w.pools[p].free;
    if free == [] {
      HandlesAppend(w.handles, Some(HandleState(Some(w.created), Some(p))), Hollow);
    } else {
      var last := |free| - 1;
      HandlesAppend(w.handles, Some(HandleState(free[last], Some(p))), Hollow);
      PoolsUpdate(w.pools, p, w.pools[p].(free := free[..last]), None);
      assert free == free[..last] + [free[last]];
    }
  }

  lemma AssignHollows(w: World, dst: nat, src: nat)
    requires Enabled(w, MoveAssign(dst, src)) && w.handles[dst].value.owned != w.handles[src].value.owned
    ensures var w' := Apply(w, MoveAssign(dst, src));
      Nulls(w') + Hollows(w') <= Nulls(w) + Hollows(w) + One(MakesHollow(w, MoveAssign(dst, src)))
  {
    var w1 := Unlink(w, dst);
    var w2 := Discard(w1, dst);
    var hs := w.handles[src].value;
    UnlinkNulls(w, dst);
    HandlesUpdate(w.handles, dst, Some(Unlink(w, dst).handles[dst].value), Hollow);
    HandlesUpdate(w1.handles, dst, w2.handles[dst], Hollow);
    HandlesUpdate(w2.handles, dst, Some(hs), Hollow);
    HandlesUpdate(w2.handles[dst := Some(hs)], src, Some(MovedFrom(hs)), Hollow);
  }

  lemma DestroyHollows(w: World, h: nat)
    requires Enabled(w, Destroy(h))
    ensures var w' := Apply(w, Destroy(h)); Nulls(w') + Hollows(w') <= Nulls(w) + Hollows(w)
  {
    var w1 := Unlink(w, h);
    var w2 := Discard(w1, h);
    UnlinkNulls(w, h);
    UnlinkHollows(w, h);
    HandlesUpdate(w1.handles, h, w2.handles[h], Hollow);
    HandlesUpdate(w2.handles, h, None, Hollow);
  }

  lemma StepHollows(w: World, op: Op)
    requires Enabled(w, op)
    ensures var w' := Apply(w, op);
      Nulls(w') + Hollows(w') <= Nulls(w) + Hollows(w) + One(MakesHollow(w, op))
  {
    match op
    case Get(p) => GetHollows(w, p);
    case MoveConstruct(src) =>
      var hs := w.handles[src].value;
      HandlesUpdate(w.handles, src, Some(MovedFrom(hs)), Hollow);
      HandlesAppend(w.handles[src := Some(MovedFrom(hs))], Some(hs), Hollow);
    case MoveAssign(dst, src) =>
      if w.handles[dst].value.owned != w.handles[src].value.owned { AssignHollows(w, dst, src); }
    case Destroy(h) => DestroyHollows(w, h);
    case SetPool(h, pool) =>
      HandlesUpdate(w.handles, h, Some(w.handles[h].value.(pool := pool)), Hollow);
    case Drop(p, keep) => ShrinkNulls(w, p, w.pools[p], keep);
    case SetMaximumSize(p, size) => ShrinkNulls(w, p, w.pools[p].(maxSpare := size), size);
  }

  /** Null slots and hollow handles together never outnumber the operations that made a handle hollow;
      so a run in which nobody moves from a linked handle, or links an empty one, has neither, and
      every handle that `get` gives out owns an object. */
  lemma {:induction false} NullsAreAccountedFor(w: World, ops: seq<Op>)
    requires Legal(w, ops)
    ensures Nulls(After(w, ops)) + Hollows(After(w, ops)) <= Nulls(w) + Hollows(w) + Hollowings(w, ops)
    decreases ops
  {
    if ops != [] {
      StepHollows(w, ops[0]);
      NullsAreAccountedFor(Apply(w, ops[0]), ops[1..]);
    }
  }

  lemma {:induction false} NoNullSlot(pools: seq<PoolN>, p: nat)
    requires p < |pools| && InPools(pools, None) == 0
    ensures None !in pools[p].free
  {
    var n := |pools| - 1;
    if p < n {
      NoNullSlot(pools[..n], p);
    } else {
      assert multiset(pools[n].free)[None] == 0;
    }
  }

  lemma GetYieldsAnObject(limits: seq<nat>, ops: seq<Op>, p: nat)
    requires Legal(Init(limits), ops) && p < |After(Init(limits), ops).pools|
    requires Hollowings(Init(limits), ops) == 0
    ensures var w := After(Init(limits), ops);
      var w' := Apply(w, Get(p));
      None !in w.pools[p].free &&
      Live(w', |w.handles|) && w'.handles[|w.handles|].value.owned.Some?
  {
    NoSlots(Init(limits).pools, None);
    NullsAreAccountedFor(Init(limits), ops);
    NoNullSlot(After(Init(limits), ops).pools, p);
  }

  /** The run that breaks it: a handle is moved from, both are destroyed while the pool has room, and
      the next `get` hands out a handle that owns nothing. */
  lemma GetCanYieldNull(limit: nat)
    requires limit != 1
    ensures var ops := [Get(0), MoveConstruct(0), Destroy(1), Destroy(0), Get(0)];
      var w0 := Init([limit]);
      Legal(w0, ops) && LastHandle(After(w0, ops)) == Some(HandleState(None, Some(0)))
  {
    var w0 := Init([limit]);
    var o := [Get(0), MoveConstruct(0), Destroy(1), Destroy(0), Get(0)];
    var w1 := Apply(w0, o[0]);
    var w2 := Apply(w1, o[1]);
    var w3 := Apply(w2, o[2]);
    var w4 := Apply(w3, o[3]);
    var w5 := Apply(w4, o[4]);
    assert w4.pools[0].free == [Some(0), None];
    Five(w0, o, w1, w2, w3, w4);
  }

  lemma Five(w0: World, o: seq<Op>, w1: World, w2: World, w3: World, w4: World)
    requires |o| == 5
    requires Enabled(w0, o[0]) && w1 == Apply(w0, o[0]) && Enabled(w1, o[1]) && w2 == Apply(w1, o[1])
    requires Enabled(w2, o[2]) && w3 == Apply(w2, o[2]) && Enabled(w3, o[3]) && w4 == Apply(w3, o[3])
    requires Enabled(w4, o[4])
    ensures Legal(w0, o) && After(w0, o) == Apply(w4, o[4])
  {
    var o1, o2, o3, o4, o5 := o[1..], o[2..], o[3..], o[4..], o[5..];
    assert o1[1..] == o2 && o2[1..] == o3 && o3[1..] == o4 && o4[1..] == o5 == [];
    assert Legal(w4, o4) && After(w4, o4) == Apply(w4, o[4]);
    assert Legal(w3, o3) && After(w3, o3) == After(w4, o4);
    assert Legal(w2, o2) && After(w2, o2) == After(w3, o3);
    assert Legal(w1, o1) && After(w1, o1) == After(w2, o2);
  }

  // ------------------------------------------------------------------ the free list as a bounded stack

  predicate AllBounded(w: World) {
    forall p :: 0 <= p < |w.pools| ==> Bounded(w.pools[p])
  }

  lemma {:induction false} FreeListsStayBounded(w: World, ops: seq<Op>)
    requires AllBounded(w) && Legal(w, ops)
    ensures AllBounded(After(w, ops))
    decreases ops
  {
    if ops != [] {
      FreeListsStayBounded(Apply(w, ops[0]), ops[1..]);
    }
  }

  function Destroys(hs: seq<nat>): (ops: seq<Op>)
    ensures |ops| == |hs|
  {
    seq(|hs|, i requires 0 <= i < |hs| => Destroy(hs[i]))
  }

  predicate LinkedTo(w: World, h: nat, p: nat) {
    Live(w, h) && w.handles[h].value.pool == Some(p)
  }

  function SlotOf(w: World, h: nat): Slot {
    if h < |w.handles| then OwnedBy(w.handles[h]) else None
  }

  function OwnedByAll(w: World, hs: seq<nat>): (r: seq<Slot>)
    ensures |r| == |hs|
  {
    seq(|hs|, i requires 0 <= i < |hs| => SlotOf(w, hs[i]))
  }

  /** Destroying any number of handles of a pool, in any order: the pool keeps the objects destroyed
      first, as many as it has room for. With a limit m > 0 and f free that makes min(m, f + n). */
  lemma DestroyingFillsThePool(w: World, p: nat, hs: seq<nat>)
    requires p < |w.pools| && Bounded(w.pools[p])
    requires forall i :: 0 <= i < |hs| ==> LinkedTo(w, hs[i], p)
    requires forall i, j :: 0 <= i < j < |hs| ==> hs[i] != hs[j]
    ensures Legal(w, Destroys(hs)) && p < |After(w, Destroys(hs)).pools|
    ensures var q := After(w, Destroys(hs)).pools[p];
      var f, m := |w.pools[p].free|, w.pools[p].maxSpare;
      && q.free == w.pools[p].free + OwnedByAll(w, hs)[..Room(w.pools[p], |hs|)]
      && |q.free| == if m == 0 || f + |hs| <= m then f + |hs| else m
  {
    DestroyingReturns(w, p, hs);
    PutAllKeepsTheFirst(w.pools[p], OwnedByAll(w, hs));
  }

  lemma {:induction false} DestroyingReturns(w: World, p: nat, hs: seq<nat>)
    requires p < |w.pools|
    requires forall i :: 0 <= i < |hs| ==> LinkedTo(w, hs[i], p)
    requires forall i, j :: 0 <= i < j < |hs| ==> hs[i] != hs[j]
    ensures Legal(w, Destroys(hs)) && p < |After(w, Destroys(hs)).pools|
    ensures After(w, Destroys(hs)).pools[p] == PutAll(w.pools[p], OwnedByAll(w, hs))
    decreases |hs|
  {
    if hs != [] {
      DestroyingRest(w, p, hs);
      DestroyOne(w, p, hs[0]);
      DestroyingReturns(Apply(w, Destroy(hs[0])), p, hs[1..]);
    }
  }

  lemma DestroyingRest(w: World, p: nat, hs: seq<nat>)
    requires p < |w.pools| && hs != []
    requires forall i :: 0 <= i < |hs| ==> LinkedTo(w, hs[i], p)
    requires forall i, j :: 0 <= i < j < |hs| ==> hs[i] != hs[j]
    ensures LinkedTo(w, hs[0], p)
    ensures var w' := Apply(w, Destroy(hs[0]));
      && (forall i :: 0 <= i < |hs[1..]| ==> LinkedTo(w', hs[1..][i], p))
      && OwnedByAll(w, hs)[0] == SlotOf(w, hs[0])
      && OwnedByAll(w, hs)[1..] == OwnedByAll(w', hs[1..])
      && Destroys(hs)[0] == Destroy(hs[0]) && Destroys(hs)[1..] == Destroys(hs[1..])
  {
    var w' := Apply(w, Destroy(hs[0]));
    DestroyOne(w, p, hs[0]);
    forall i | 1 <= i < |hs|
      ensures LinkedTo(w', hs[i], p) && SlotOf(w', hs[i]) == SlotOf(w, hs[i])
    {
      assert LinkedTo(w, hs[i], p) && hs[i] != hs[0];
    }
  }

  lemma DestroyOne(w: World, p: nat, h: nat)
    requires p < |w.pools| && LinkedTo(w, h, p)
    ensures var w' := Apply(w, Destroy(h));
      && |w'.pools| == |w.pools| && |w'.handles| == |w.handles|
      && w'.pools[p] == Put(w.pools[p], SlotOf(w, h))
      && forall k :: 0 <= k < |w.handles| && k != h ==> w'.handles[k] == w.handles[k]
  {
  }
}
