/** The object pool on values: what its operations make of a free list, of handles, and of a whole
    world of pools and handles. A unique_ptr is an `Option`: `None` is the null pointer. */
module PoolSpec {
  import opened Messages

  /** `m_freePool`, the most recently returned object last, and `m_maxSpare`, 0 meaning no limit. */
  datatype PoolState<+T> = PoolState(free: seq<Option<T>>, maxSpare: nat)

  /** A `Ptr`: the object it owns and the pool it will return it to. */
  datatype HandleState<+T, +P> = HandleState(owned: Option<T>, pool: Option<P>)

  predicate Accepts<T>(p: PoolState<T>) {
    p.maxSpare == 0 || |p.free| < p.maxSpare
  }

  function Put<T>(p: PoolState<T>, slot: Option<T>): PoolState<T> {
    if Accepts(p) then p.(free := p.free + [slot]) else p
  }

  /** Resizing the vector to a smaller size. */
  function Keep<T>(p: PoolState<T>, keep: nat): PoolState<T> {
    if |p.free| > keep then p.(free := p.free[..keep]) else p
  }

  function Dropped<T>(p: PoolState<T>, keep: nat): seq<Option<T>> {
    if |p.free| > keep then p.free[keep..] else []
  }

  /** What taking an object leaves, and the slot it takes; `None` for the list when it must be made. */
  function Take<T>(p: PoolState<T>): (r: (PoolState<T>, Option<Option<T>>))
    ensures p.free == [] <==> r.1 == None
  {
    if p.free == [] then (p, None)
    else (p.(free := p.free[..|p.free| - 1]), Some(p.free[|p.free| - 1]))
  }

  predicate Bounded<T>(p: PoolState<T>) {
    p.maxSpare == 0 || |p.free| <= p.maxSpare
  }

  /** An accepted return followed by a get gives the same object and the free list as it was. */
  lemma ReturnThenTake<T>(p: PoolState<T>, slot: Option<T>)
    ensures Accepts(p) <==> Take(Put(p, slot)) == (p, Some(slot)) && Put(p, slot) != p
    ensures !Accepts(p) ==> Put(p, slot) == p
  {
    if Accepts(p) {
      assert (p.free + [slot])[..|p.free|] == p.free;
      assert |Put(p, slot).free| == |p.free| + 1;
    }
  }

  /** Returning `slots` one after the other. */
  function PutAll<T>(p: PoolState<T>, slots: seq<Option<T>>): PoolState<T>
    decreases |slots|
  {
    if slots == [] then p else PutAll(Put(p, slots[0]), slots[1..])
  }

  /** How many of `n` returned objects the pool takes. */
  function Room<T>(p: PoolState<T>, n: nat): (r: nat)
    ensures r <= n
  {
    if p.maxSpare == 0 then n
    else if |p.free| >= p.maxSpare then 0
    else if n <= p.maxSpare - |p.free| then n else p.maxSpare - |p.free|
  }

  /** Of any number of returned objects the pool keeps the first ones, as many as it has room for,
      above those it had, in the order of their return. */
  lemma {:induction false} PutAllKeepsTheFirst<T>(p: PoolState<T>, slots: seq<Option<T>>)
    ensures PutAll(p, slots) == p.(free := p.free + slots[..Room(p, |slots|)])
    decreases |slots|
  {
    if slots == [] {
      assert p.free + slots[..0] == p.free;
    } else {
      var q := Put(p, slots[0]);
      var n := Room(q, |slots| - 1);
      PutAllKeepsTheFirst(q, slots[1..]);
      if Accepts(p) {
        assert Room(p, |slots|) == n + 1;
        assert p.free + [slots[0]] + slots[1..][..n] == p.free + slots[..n + 1];
      } else {
        assert Room(p, |slots|) == n == 0;
        assert p.free + slots[..0] == p.free == q.free + slots[1..][..0];
      }
    }
  }

  /** `doUnlink`: a linked handle offers what it owns, be it null, to its pool; if the pool takes it
      the handle is left empty and unlinked. */
  function Unlinked<T, P>(h: HandleState<T, P>, p: PoolState<T>): HandleState<T, P> {
    if h.pool.Some? && Accepts(p) then HandleState(None, None) else h
  }

  function AfterUnlink<T, P>(h: HandleState<T, P>, p: PoolState<T>): PoolState<T> {
    if h.pool.Some? then Put(p, h.owned) else p
  }

  /** A moved-from handle owns nothing any more but keeps its pool pointer. */
  function MovedFrom<T, P>(h: HandleState<T, P>): HandleState<T, P> {
    h.(owned := None)
  }
}
