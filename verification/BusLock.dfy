/** The bus lock shared by the harts and the writing peripherals. */
module BusLock {
  import opened Isa

  /** The owner, if the bus is locked. */
  type Owner = Option<nat>

  /** May this hart access the bus now? Otherwise it waits for the lock event. */
  predicate Admits(l: Owner, hart: nat) {
    l == None || l == Some(hart)
  }

  function Unlocked(l: Owner, hart: nat): Owner {
    if l == Some(hart) then None else l
  }

  class Lock {
    var locked: bool
    var owner: nat

    constructor ()
      ensures Holder() == None
    {
      locked, owner := false, 0;
    }

    function Holder(): Owner
      reads this
    {
      if locked then Some(owner) else None
    }

    /** One attempt of the waiting loop: `ready` tells whether the hart may go on. */
    method WaitForAccessRights(hart: nat) returns (ready: bool)
      ensures ready == Admits(Holder(), hart)
    {
      ready := !(locked && !(owner == hart));
    }

    method WaitUntilUnlocked() returns (ready: bool)
      ensures ready == (Holder() == None)
    {
      ready := !locked;
    }

    /** `lock`: an attempt that has to wait leaves the lock alone. */
    method Acquire(hart: nat) returns (ready: bool)
      modifies this
      ensures ready == Admits(old(Holder()), hart)
      ensures Holder() == if ready then Some(hart) else old(Holder())
    {
      ready := true;
      if locked && hart != owner {
        ready := WaitUntilUnlocked();
      }
      if ready {
        assert !locked || hart == owner;
        locked := true;
        owner := hart;
      }
    }

    method Release(hart: nat)
      modifies this
      ensures Holder() == Unlocked(old(Holder()), hart)
    {
      if locked && owner == hart {
        locked := false;
      }
    }
  }
}
