/** `Pool` and `Pool::Ptr` as the objects they are, updated in place. */
module PoolClasses {
  import opened Messages
  import S = PoolSpec

  /** The objects a pool hands out. */
  class Pooled {
    constructor () {}
  }

  class Pool {
    var free: seq<Option<Pooled>>
    var maxSpare: nat

    function State(): S.PoolState<Pooled>
      reads this
    {
      S.PoolState(free, maxSpare)
    }

    constructor (maxSpare: nat := 0)
      ensures State() == S.PoolState([], maxSpare)
    {
      this.free, this.maxSpare := [], maxSpare;
    }

    method Put(po: Ptr) returns (accepted: bool)
      modifies this, po
      ensures accepted == S.Accepts(old(State())) && State() == S.Put(old(State()), old(po.owned))
      ensures po.State() == if accepted then S.HandleState(None, None) else old(po.State())
    {
      accepted := maxSpare == 0 || |free| < maxSpare;
      if accepted {
        po.SetPool(null);
        free := free + [po.owned];
        po.owned := None;
      }
    }

    method Get() returns (ptr: Ptr)
      modifies this
      ensures fresh(ptr) && ptr.pool == this && State() == S.Take(old(State())).0
      ensures old(free) == [] ==> ptr.owned.Some? && fresh(ptr.owned.value)
      ensures old(free) != [] ==> Some(ptr.owned) == S.Take(old(State())).1
    {
      if free == [] {
        var made := new Pooled();
        ptr := new Ptr(Some(made), this);
      } else {
        var it := free[|free| - 1];
        free := free[..|free| - 1];
        ptr := new Ptr(it, this);
      }
    }

    /** The removed slots come out as a ghost, to be accounted for as destroyed. */
    method Drop(keep: nat := 0) returns (ghost destroyed: seq<Option<Pooled>>)
      modifies this
      ensures State() == S.Keep(old(State()), keep) && destroyed == S.Dropped(old(State()), keep)
      ensures old(free) == free + destroyed && |free| == if |old(free)| > keep then keep else |old(free)|
    {
      destroyed := [];
      if |free| > keep {
        destroyed := free[keep..];
        free := free[..keep];
      }
    }

    method SetMaximumSize(s: nat) returns (ghost destroyed: seq<Option<Pooled>>)
      modifies this
      ensures State() == S.Keep(old(State()).(maxSpare := s), s)
      ensures destroyed == S.Dropped(old(State()), s) && old(free) == free + destroyed
      ensures S.Bounded(State())
    {
      maxSpare := s;
      destroyed := [];
      if |free| > s {
        destroyed := free[s..];
        free := free[..s];
      }
    }
  }

  class Ptr {
    var owned: Option<Pooled>
    var pool: Pool?

    function State(): S.HandleState<Pooled, Pool>
      reads this
    {
      if pool == null then S.HandleState(owned, None) else S.HandleState(owned, Some(pool))
    }

    constructor (owned: Option<Pooled>, pool: Pool?)
      ensures this.owned == owned && this.pool == pool
    {
      this.owned, this.pool := owned, pool;
    }

    constructor Move(src: Ptr)
      modifies src
      ensures State() == old(src.State()) && src.State() == S.MovedFrom(old(src.State()))
    {
      owned, pool := src.owned, src.pool;
      new;
      src.owned := None;
    }

    method SetPool(p: Pool?)
      modifies this`pool
      ensures pool == p
    {
      pool := p;
    }

    method Release()
      modifies this`pool
      ensures State() == old(State()).(pool := None)
    {
      pool := null;
    }

    method Unlink()
      modifies this, pool
      ensures old(pool) != null ==>
        && State() == S.Unlinked(old(State()), old(pool.State()))
        && old(pool).State() == S.AfterUnlink(old(State()), old(pool.State()))
      ensures old(pool) == null ==> State() == old(State())
    {
      if pool != null {
        var _ := pool.Put(this);
      }
    }

    /** The destructor: what is still owned after unlinking goes with the handle. */
    method Destroy() returns (ghost destroyed: Option<Pooled>)
      modifies this, pool
      ensures old(pool) != null ==>
        && destroyed == S.Unlinked(old(State()), old(pool.State())).owned
        && old(pool).State() == S.AfterUnlink(old(State()), old(pool.State()))
      ensures old(pool) == null ==> destroyed == old(owned)
    {
      Unlink();
      destroyed := owned;
      owned := None;
    }

    /** Move assignment. Nothing happens when both own the same object, which is the case for a
        handle moved to itself and for two handles that both own nothing. Otherwise the target is
        unlinked, what it still owns is destroyed, and the source is left empty but linked. */
    method MoveAssign(src: Ptr) returns (ghost destroyed: Option<Pooled>)
      modifies this, src, pool
      ensures old(owned) == old(src.owned) ==>
        && destroyed == None && State() == old(State()) && src.State() == old(src.State())
        && (old(pool) != null ==> old(pool).State() == old(pool.State()))
      ensures old(owned) != old(src.owned) ==>
        && State() == old(src.State()) && src.State() == S.MovedFrom(old(src.State()))
        && (old(pool) != null ==>
              && destroyed == S.Unlinked(old(State()), old(pool.State())).owned
              && old(pool).State() == S.AfterUnlink(old(State()), old(pool.State())))
        && (old(pool) == null ==> destroyed == old(owned))
      ensures this == src ==> State() == old(State())
    {
      destroyed := None;
      if owned != src.owned {
        Unlink();
        destroyed := owned;
        owned := src.owned;
        src.owned := None;
        pool := src.pool;
      }
    }
  }
}
