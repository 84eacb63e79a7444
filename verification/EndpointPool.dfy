/** Outbound connection slots of one endpoint: leasing, pooling, reserving and the handles that name
    a reservation. */
module EndpointPools {
  import opened Helpers

  const NO_SLOT := 0xFFFF_FFFF
  const GENERATIONS := 0xFFFF
  const U16 := 0x1_0000
  const U32 := 0x1_0000_0000
  const U48 := 0x1_0000_0000_0000

  /** `taken` is the slot's bit in the pool, `marked` its preference bit; `open` says that its
      connection is alive, `busy` that a request waits on it, `streams` how many share it. */
  datatype Slot = Slot(
    taken: bool,
    marked: bool,
    generationId: nat,
    isPooledIdle: bool,
    isReserved: bool,
    open: bool,
    busy: bool,
    streams: nat)

  const FRESH := Slot(false, false, 1, false, false, false, false, 0)

  // ---------------------------------------------------------------- generations and handles

  /** The generation of a slot leased `leases` times: 16 bits, never 0. */
  function Generation(leases: nat): (g: nat)
    ensures 0 < g < U16
  {
    1 + leases % GENERATIONS
  }

  function NextGeneration(g: nat): nat {
    if (g + 1) % U16 == 0 then 1 else (g + 1) % U16
  }

  lemma NextLease(leases: nat)
    ensures NextGeneration(Generation(leases)) == Generation(leases + 1)
  {
  }

  /** A generation comes back after 65535 leases and not before. */
  lemma GenerationReturns(a: nat, b: nat)
    requires a <= b
    ensures Generation(a) == Generation(b) <==> (b - a) % GENERATIONS == 0
  {
    var r := b % GENERATIONS - a % GENERATIONS;
    assert b - a == GENERATIONS * (b / GENERATIONS - a / GENERATIONS) + r;
  }

  lemma SameLease(a: nat, b: nat)
    requires a <= b < a + GENERATIONS
    ensures Generation(a) == Generation(b) <==> a == b
  {
    GenerationReturns(a, b);
  }

  /** endpoint index (16 bits) | pool index (32) | generation (16). */
  function Pack(endpointIdx: nat, idx: nat, generationId: nat): nat {
    endpointIdx * U48 + idx * U16 + generationId
  }

  function Unpack(handle: nat): (nat, nat, nat) {
    (handle / U48 % U16, handle / U16 % U32, handle % U16)
  }

  lemma PackUnpack(e: nat, idx: nat, g: nat)
    requires e < U16 && idx < U32 && 0 < g < U16
    ensures Unpack(Pack(e, idx, g)) == (e, idx, g) && Pack(e, idx, g) != 0 && Pack(e, idx, g) < U16 * U48
  {
    var handle := Pack(e, idx, g);
    assert idx * U16 + g < U48;
    Quotient(handle, U48, e, idx * U16 + g);
    Quotient(handle, U16, e * U32 + idx, g);
    Quotient(e * U32 + idx, U32, e, idx);
    Quotient(e, U16, 0, e);
  }

  lemma UnpackPack(handle: nat)
    requires handle < U16 * U48
    ensures var (e, idx, g) := Unpack(handle); Pack(e, idx, g) == handle
  {
    assert handle / U16 == handle / U48 * U32 + handle / U16 % U32;
  }

  // ---------------------------------------------------------------- counting leases

  predicate InUse(s: Slot) { s.taken && !s.isPooledIdle }

  function Leased(slots: seq<Slot>): nat {
    if slots == [] then 0 else (if InUse(slots[0]) then 1 else 0) + Leased(slots[1..])
  }

  lemma {:induction false} LeasedUpdate(slots: seq<Slot>, i: nat, s: Slot)
    requires i < |slots|
    ensures Leased(slots[i := s]) == Leased(slots) - (if InUse(slots[i]) then 1 else 0) + (if InUse(s) then 1 else 0)
  {
    if i == 0 {
      assert slots[0 := s][1..] == slots[1..];
    } else {
      assert slots[i := s][1..] == slots[1..][i - 1 := s];
      LeasedUpdate(slots[1..], i - 1, s);
    }
  }

  lemma {:induction false} NoneLeased(slots: seq<Slot>)
    requires forall s <- slots :: !InUse(s)
    ensures Leased(slots) == 0
  {
    if slots != [] {
      NoneLeased(slots[1..]);
    }
  }

  /** What holds of every slot between steps. A free slot is marked exactly when it holds an open
      idle connection; a reserved or busy slot is leased. */
  predicate Sound(s: Slot) {
    && (s.isReserved || s.busy ==> InUse(s))
    && (!s.taken ==> s.marked == s.open == s.isPooledIdle && s.streams == 0)
    && (s.taken ==> !s.marked && (s.isPooledIdle ==> s.streams == 0))
  }

  class EndpointPool {
    const endpointIdx: nat
    const slots: array<Slot>
    var slotsInUse: int
    ghost var leases: seq<nat>   // how often each slot has been leased

    ghost predicate Valid()
      reads this, slots
    {
      && endpointIdx < U16 && slots.Length < NO_SLOT && |leases| == slots.Length
      && slotsInUse == Leased(slots[..])
      && forall i | 0 <= i < slots.Length :: Sound(slots[i]) && slots[i].generationId == Generation(leases[i])
    }

    constructor (endpointIdx: nat, size: nat)
      requires endpointIdx < U16 && size < NO_SLOT
      ensures Valid() && fresh(slots) && slots.Length == size && slotsInUse == 0
      ensures forall i | 0 <= i < size :: slots[i] == FRESH
    {
      this.endpointIdx := endpointIdx;
      slots := new Slot[size](_ => FRESH);
      slotsInUse := 0;
      leases := seq(size, _ => 0);
      new;
      NoneLeased(slots[..]);
    }

    /** Overwrites one slot, leased `lease` times by now; the count follows. */
    method Put(i: nat, s: Slot, inUse: int, ghost lease: nat)
      requires Valid() && i < slots.Length && Sound(s) && s.generationId == Generation(lease)
      requires inUse == slotsInUse - (if InUse(slots[i]) then 1 else 0) + (if InUse(s) then 1 else 0)
      modifies slots, this`slotsInUse, this`leases
      ensures Valid() && slots[..] == old(slots[..])[i := s] && slotsInUse == inUse && leases == old(leases)[i := lease]
    {
      LeasedUpdate(slots[..], i, s);
      slots[i] := s;
      slotsInUse := inUse;
      leases := leases[i := lease];
      assert slots[..] == old(slots[..])[i := s];
    }

    /** A free slot, one that is marked before one that is not. */
    method AllocSlot(onlyMarked: bool) returns (idx: nat)
      requires Valid()
      ensures idx == NO_SLOT ==> forall i | 0 <= i < slots.Length :: slots[i].taken || (onlyMarked && !slots[i].marked)
      ensures idx != NO_SLOT ==> idx < slots.Length && !slots[idx].taken && (onlyMarked ==> slots[idx].marked)
    {
      idx := 0;
      while idx < slots.Length
        invariant idx <= slots.Length
        invariant forall i | 0 <= i < idx :: slots[i].taken || (onlyMarked && !slots[i].marked)
      {
        if !slots[idx].taken && (onlyMarked ==> slots[idx].marked) {
          return;
        }
        idx := idx + 1;
      }
      idx := NO_SLOT;
    }

    /** Leases a slot that nobody holds, one whose connection is still open if there is any. None is
        to be had exactly when every slot is taken. */
    method GetEndpointConnection() returns (idx: nat)
      requires Valid()
      modifies slots, this`slotsInUse, this`leases
      ensures Valid()
      ensures idx == NO_SLOT <==> forall i | 0 <= i < slots.Length :: old(slots[i].taken)
      ensures idx == NO_SLOT ==> slots[..] == old(slots[..]) && leases == old(leases) && slotsInUse == old(slotsInUse)
      ensures idx != NO_SLOT ==>
                && idx < slots.Length && !old(slots[idx].taken) && slotsInUse == old(slotsInUse) + 1
                && leases == old(leases)[idx := old(leases[idx]) + 1]
                && slots[idx] == old(slots[idx]).(taken := true, marked := false, isPooledIdle := false,
                                                  generationId := Generation(leases[idx]))
                && slots[..] == old(slots[..])[idx := slots[idx]]
                && (slots[idx].open <==> exists i | 0 <= i < slots.Length :: !old(slots[i].taken) && old(slots[i].open))
      ensures forall i: nat, lease: nat | old(Held(i, lease)) :: Held(i, lease) && i != idx
    {
      idx := AllocSlot(true);
      if idx == NO_SLOT {
        idx := AllocSlot(false);
      }
      if idx == NO_SLOT {
        return;
      }
      var s := slots[idx];
      NextLease(leases[idx]);
      Put(idx, s.(taken := true, marked := false, isPooledIdle := false,
                  generationId := NextGeneration(s.generationId)),
          slotsInUse + 1, leases[idx] + 1);
    }

    /** Whether the slot's connection can go away: it is leased, shared while idle, or pooled open. */
    predicate Closable(i: nat)
      requires i < slots.Length
      reads slots
    {
      slots[i].taken || slots[i].isPooledIdle
    }

    /** The connection is gone: the slot is free, unmarked and unreserved. */
    method ReleaseEndpoint(i: nat)
      requires Valid() && i < slots.Length && Closable(i)
      modifies slots, this`slotsInUse, this`leases
      ensures Valid() && leases == old(leases)
      ensures slots[..] == old(slots[..])[i := FRESH.(generationId := old(slots[i].generationId))]
      ensures slotsInUse == old(slotsInUse) - if old(slots[i].isPooledIdle) then 0 else 1
    {
      var inUse := slotsInUse;
      if !slots[i].isPooledIdle {
        inUse := inUse - 1;
      }
      Put(i, FRESH.(generationId := slots[i].generationId), inUse, leases[i]);
    }

    /** Hands an open connection back. A reserved slot stays with its holder. */
    method ReturnEndpointToPool(i: nat)
      requires Valid() && i < slots.Length && InUse(slots[i]) && slots[i].open && !slots[i].busy
              && slots[i].streams == 0
      modifies slots, this`slotsInUse, this`leases
      ensures Valid() && leases == old(leases)
      ensures old(slots[i].isReserved) ==> slots[..] == old(slots[..]) && slotsInUse == old(slotsInUse)
      ensures !old(slots[i].isReserved) ==>
                var s := old(slots[i]).(taken := false, isPooledIdle := true, marked := true);
                && slots[..] == old(slots[..])[i := s]
                && slotsInUse == old(slotsInUse) - 1
    {
      if !slots[i].isReserved {
        Put(i, slots[i].(taken := false, isPooledIdle := true, marked := true), slotsInUse - 1, leases[i]);
      }
    }

    /** The slot's connection comes up. */
    method Opened(i: nat)
      requires Valid() && i < slots.Length && InUse(slots[i])
      modifies slots, this`slotsInUse, this`leases
      ensures Valid() && leases == old(leases) && slotsInUse == old(slotsInUse)
      ensures slots[..] == old(slots[..])[i := old(slots[i]).(open := true)]
    {
      Put(i, slots[i].(open := true), slotsInUse, leases[i]);
    }

    /** A request starts waiting on the slot. */
    method Begin(i: nat)
      requires Valid() && i < slots.Length && InUse(slots[i]) && !slots[i].busy
      modifies slots, this`slotsInUse, this`leases
      ensures Valid() && leases == old(leases) && slotsInUse == old(slotsInUse)
      ensures slots[..] == old(slots[..])[i := old(slots[i]).(busy := true)]
    {
      Put(i, slots[i].(busy := true), slotsInUse, leases[i]);
    }

    /** The request is answered and the connection kept. */
    method CompleteKeepAlive(i: nat)
      requires Valid() && i < slots.Length && InUse(slots[i]) && slots[i].open && slots[i].busy && slots[i].streams == 0
      modifies slots, this`slotsInUse, this`leases
      ensures Valid() && leases == old(leases)
      ensures old(slots[i].isReserved) ==>
              slots[..] == old(slots[..])[i := old(slots[i]).(busy := false)] && slotsInUse == old(slotsInUse)
      ensures !old(slots[i].isReserved) ==>
                var s := old(slots[i]).(busy := false, taken := false, isPooledIdle := true, marked := true);
                && slots[..] == old(slots[..])[i := s]
                && slotsInUse == old(slotsInUse) - 1
    {
      Put(i, slots[i].(busy := false), slotsInUse, leases[i]);
      ReturnEndpointToPool(i);
    }

    // ---------------------------------------------------------------- shared connections

    /** A stream joins an open connection that others may share. */
    method MultiplexReacquireLease(i: nat)
      requires Valid() && i < slots.Length && slots[i].taken
      modifies slots, this`slotsInUse, this`leases
      ensures Valid() && leases == old(leases)
      ensures slots[..] == old(slots[..])[i := old(slots[i]).(isPooledIdle := false)]
      ensures slotsInUse == old(slotsInUse) + if old(slots[i].isPooledIdle) then 1 else 0
    {
      if slots[i].isPooledIdle {
        Put(i, slots[i].(isPooledIdle := false), slotsInUse + 1, leases[i]);
      }
    }

    /** A shared connection without streams left is not in use. */
    method MultiplexReleaseLeaseIfIdle(i: nat)
      requires Valid() && i < slots.Length && slots[i].taken && !slots[i].isReserved && !slots[i].busy
      modifies slots, this`slotsInUse, this`leases
      ensures Valid() && leases == old(leases)
      ensures var s := old(slots[i]).(isPooledIdle := old(slots[i].isPooledIdle || slots[i].streams == 0));
              slots[..] == old(slots[..])[i := s]
      ensures slotsInUse == old(slotsInUse) - if !old(slots[i].isPooledIdle) && old(slots[i].streams) == 0 then 1 else 0
    {
      if slots[i].isPooledIdle || slots[i].streams > 0 {
        return;
      }
      Put(i, slots[i].(isPooledIdle := true), slotsInUse - 1, leases[i]);
    }

    method SetStreams(i: nat, streams: nat)
      requires Valid() && i < slots.Length && InUse(slots[i])
      modifies slots, this`slotsInUse, this`leases
      ensures Valid() && leases == old(leases) && slotsInUse == old(slotsInUse)
      ensures slots[..] == old(slots[..])[i := old(slots[i]).(streams := streams)]
    {
      Put(i, slots[i].(streams := streams), slotsInUse, leases[i]);
    }

    // ---------------------------------------------------------------- reservations

    function EncodeSlotHandle(i: nat): nat
      requires i < slots.Length
      reads slots
    {
      Pack(endpointIdx, i, slots[i].generationId)
    }

    /** The slot a handle names while its reservation is held. */
    method DecodeSlotHandle(pinnedSlot: nat) returns (idx: nat)
      requires Valid()
      ensures idx != NO_SLOT <==>
                var (e, i, g) := Unpack(pinnedSlot);
                pinnedSlot != 0 && e == endpointIdx && i < slots.Length && slots[i].generationId == g
                    && slots[i].isReserved
      ensures idx != NO_SLOT ==> idx == Unpack(pinnedSlot).1
    {
      if pinnedSlot == 0 {
        return NO_SLOT;
      }
      var (e, i, g) := Unpack(pinnedSlot);
      if e != endpointIdx || i >= slots.Length {
        return NO_SLOT;
      }
      if slots[i].generationId != g || !slots[i].isReserved {
        return NO_SLOT;
      }
      return i;
    }

    /** The reservation made at the `lease`-th lease of slot i is held. */
    ghost predicate Held(i: nat, lease: nat)
      requires Valid()
      reads this, slots
    {
      i < slots.Length && slots[i].isReserved && leases[i] == lease
    }

    /** A handle issued at the `lease`-th lease of slot i names that slot exactly while that
        reservation is held, as long as the slot is leased less than 65535 times in between; with
        more leases, exactly while it is reserved by any lease a multiple of 65535 later. */
    lemma HandleNamesReservation(i: nat, lease: nat)
      requires Valid() && i < slots.Length && lease <= leases[i]
      ensures var handle := Pack(endpointIdx, i, Generation(lease));
              && handle != 0 && Unpack(handle) == (endpointIdx, i, Generation(lease))
              && (leases[i] < lease + GENERATIONS ==>
                    (slots[i].generationId == Generation(lease) && slots[i].isReserved <==> Held(i, lease)))
              && (slots[i].generationId == Generation(lease) <==> (leases[i] - lease) % GENERATIONS == 0)
    {
      PackUnpack(endpointIdx, i, Generation(lease));
      GenerationReturns(lease, leases[i]);
      if leases[i] < lease + GENERATIONS {
        SameLease(lease, leases[i]);
      }
    }

    /** Reserves a slot; 0 when the pool is exhausted. */
    method ReserveSlot() returns (handle: nat)
      requires Valid()
      modifies slots, this`slotsInUse, this`leases
      ensures Valid()
      ensures handle == 0 <==> forall i | 0 <= i < slots.Length :: old(slots[i].taken)
      ensures handle == 0 ==> slots[..] == old(slots[..]) && leases == old(leases)
      ensures handle != 0 ==>
                var i := Unpack(handle).1;
                && i < slots.Length && !old(slots[i].taken) && leases == old(leases)[i := old(leases[i]) + 1]
                && Held(i, leases[i]) && handle == Pack(endpointIdx, i, Generation(leases[i]))
                && slots[..] == old(slots[..])[i := slots[i]]
      ensures forall i: nat, lease: nat | old(Held(i, lease)) ::
              Held(i, lease) && (handle != 0 ==> i != Unpack(handle).1)
    {
      var idx := GetEndpointConnection();
      if idx == NO_SLOT {
        return 0;
      }
      Put(idx, slots[idx].(isReserved := true), slotsInUse, leases[idx]);
      PackUnpack(endpointIdx, idx, slots[idx].generationId);
      return EncodeSlotHandle(idx);
    }

    /** Gives a reservation back: an open connection to the pool, one never opened away; a slot with
        a request on it is left to its completion. A handle that names no held reservation does
        nothing. */
    method ReleaseSlot(pinnedSlot: nat)
      requires Valid() && forall i | 0 <= i < slots.Length :: slots[i].isReserved ==> slots[i].streams == 0
      modifies slots, this`slotsInUse, this`leases
      ensures Valid() && leases == old(leases)
      ensures var (e, i, g) := Unpack(pinnedSlot);
              if pinnedSlot == 0 || e != endpointIdx || i >= slots.Length || old(slots[i].generationId) != g
                  || !old(slots[i].isReserved) then
                slots[..] == old(slots[..]) && slotsInUse == old(slotsInUse)
              else
                && !slots[i].isReserved && slots[..] == old(slots[..])[i := slots[i]]
                && (old(slots[i].busy) ==> InUse(slots[i]) && slots[i].busy)
                && (!old(slots[i].busy) ==> !slots[i].taken && slots[i].open == old(slots[i].open))
      ensures forall i: nat, lease: nat | old(Held(i, lease)) && i != Unpack(pinnedSlot).1 :: Held(i, lease)
    {
      var i := DecodeSlotHandle(pinnedSlot);
      if i == NO_SLOT {
        return;
      }
      assert i == Unpack(pinnedSlot).1;
      Put(i, slots[i].(isReserved := false), slotsInUse, leases[i]);
      assert forall k | 0 <= k < slots.Length && k != i :: slots[k] == old(slots[k]);
      if slots[i].busy {
        return;
      }
      if !slots[i].open {
        ReleaseEndpoint(i);
      } else {
        ReturnEndpointToPool(i);
      }
    }
  }
}
