/**
 XboxAutoPtr: the RAII holder that ties one heap object to one tracked
 resource id. It touches the id when it starts holding a non-null pointer
 under a non-empty id, and unregisters the id when it lets go of such a
 pointer (destruction or reset). The manager the source reaches through its
 static members is the `manager` field here.
 */
module XboxAutoPtr {
  import opened XboxMemorySpec
  import opened XboxMemory

  class AutoPtr {
    const manager: MemoryManager
    var ptr: Pointer
    var id: string

    /** Whether the holder currently answers for `id` towards the manager. */
    predicate Tracks()
      reads this
    {
      ptr != Null && id != ""
    }

    /** Takes `p` under `id`; touches the id only when both are set. */
    constructor (manager: MemoryManager, p: Pointer, id: string, now: Tick)
      requires manager.Valid()
      modifies manager
      ensures this.manager == manager && ptr == p && this.id == id
      ensures manager.Valid() && (old(manager.Balanced()) ==> manager.Balanced())
      ensures Tracks() ==> manager.Ledger() == Touched(old(manager.Ledger()), id, now)
      ensures Tracks() ==> manager.initialized == old(manager.initialized) && manager.cacheSizes == old(manager.cacheSizes)
                           && manager.lastCleanup == old(manager.lastCleanup)
      ensures !Tracks() ==> unchanged(manager)
    {
      this.manager := manager;
      ptr := p;
      this.id := id;
      new;
      if p != Null && id != "" {
        manager.TouchResource(id, now);
      }
    }

    /**
     The destructor: unregisters the id only while it is tracked, then drops
     the pointer (the source deletes it).
     */
    method Destroy()
      requires manager.Valid()
      modifies this, manager
      ensures ptr == Null && id == old(id)
      ensures manager.Valid() && (old(manager.Balanced()) ==> manager.Balanced())
      ensures old(Tracks()) ==> manager.Ledger() == Unregistered(old(manager.Ledger()), old(id))
      ensures old(Tracks()) ==> manager.initialized == old(manager.initialized) && manager.cacheSizes == old(manager.cacheSizes)
                                && manager.lastCleanup == old(manager.lastCleanup)
      ensures !old(Tracks()) ==> unchanged(manager)
    {
      if ptr != Null && id != "" {
        manager.UnregisterResource(id);
      }
      ptr := Null;
    }

    /** Gives up ownership without telling the manager: the id stays registered. */
    method Release() returns (p: Pointer)
      modifies this
      ensures p == old(ptr) && ptr == Null && id == old(id)
      ensures !Tracks()
    {
      p := ptr;
      ptr := Null;
    }

    /**
     Unregisters the old id (if tracked), drops the old pointer, takes `p`
     under `newId`, and touches the new id (if now tracked).
     */
    method Reset(p: Pointer, newId: string, now: Tick)
      requires manager.Valid()
      modifies this, manager
      ensures ptr == p && id == newId
      ensures manager.Valid() && (old(manager.Balanced()) ==> manager.Balanced())
      ensures manager.initialized == old(manager.initialized) && manager.cacheSizes == old(manager.cacheSizes)
              && manager.lastCleanup == old(manager.lastCleanup)
      ensures var released := if old(Tracks()) then Unregistered(old(manager.Ledger()), old(id)) else old(manager.Ledger());
        manager.Ledger() == if Tracks() then Touched(released, newId, now) else released
    {
      ghost var released := if ptr != Null && id != "" then Unregistered(manager.Ledger(), id) else manager.Ledger();
      if ptr != Null && id != "" {
        manager.UnregisterResource(id);
      }
      ptr := p;
      id := newId;
      if ptr != Null && id != "" {
        manager.TouchResource(id, now);
      }
    }
  }
}
