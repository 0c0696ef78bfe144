/** The shared memory accountant, as its clients see it: any charge may be refused. */
module Budget {
  import opened Values

  class MemoryBudget {
    /** Bytes charged by the operators of the statement. */
    var charged: nat

    constructor ()
      ensures charged == 0
    {
      charged := 0;
    }

    /** charge_or_reclaim and try_charge: whether the bytes fit depends on every
        other holder and on the reclaimer, so the answer is arbitrary; the total is
        a usize. */
    method Charge(bytes: nat) returns (granted: bool)
      modifies this
      ensures charged == if granted then old(charged) + bytes else old(charged)
      ensures granted ==> charged <= USIZE_MAX
    {
      granted := *;
      granted := granted && charged + bytes <= USIZE_MAX;
      if granted { charged := charged + bytes; }
    }

    /** release: giving back more than is charged is a bookkeeping bug. */
    method Release(bytes: nat)
      requires bytes <= charged
      modifies this
      ensures charged == old(charged) - bytes
    {
      charged := charged - bytes;
    }
  }
}
