/** Slot, epoch and wall-clock arithmetic across the Byron/Shelley switch (processors/block_processor.go). */
module Slots {
  const BYRON_EBB := 0
  const BYRON_MAIN := 1
  const SHELLEY := 2

  const BYRON_END := 4492799
  const SHELLEY_START := 4492800
  const BYRON_EPOCH_SLOTS := 21600
  const SHELLEY_EPOCH_SLOTS := 432000

  /** Nanoseconds, the unit of time.Duration. */
  const SECOND := 1_000_000_000
  const TWO_63 := 0x8000_0000_0000_0000
  const TWO_32 := 0x1_0000_0000

  /** Shelley start minus Byron start: 1040 days. */
  const SHELLEY_START_TIME := 1040 * 86400 * SECOND
  const EPOCH_TIME := 432000 * SECOND

  /** Conversion to uint32. */
  function Uint32(x: nat): nat { x % TWO_32 }

  /** Two's complement wrap-around of int64. */
  function Int64(x: int): int { (x + TWO_63) % (2 * TWO_63) - TWO_63 }

  predicate ByronType(blockType: nat) { blockType == BYRON_EBB || blockType == BYRON_MAIN }

  /** getEpochForSlot */
  function EpochForSlot(slot: nat, blockType: nat): nat {
    if slot == BYRON_END + 1 then 208
    else if ByronType(blockType) then Uint32(slot / BYRON_EPOCH_SLOTS)
    else if slot < SHELLEY_START then Uint32(slot / BYRON_EPOCH_SLOTS)
    else Uint32(208 + Uint32((slot - SHELLEY_START) / SHELLEY_EPOCH_SLOTS))
  }

  /** time.Duration(slot) * 20 * time.Second, in int64 arithmetic. */
  function ByronOffset(slot: nat): int { Int64(Int64(Int64(slot) * 20) * SECOND) }

  /** time.Duration(shelleySlot) * time.Second, in int64 arithmetic. */
  function ShelleyOffset(shelleySlot: nat): int { Int64(Int64(shelleySlot) * SECOND) }

  /** getBlockTime, in nanoseconds after the Byron start. */
  function BlockTime(slot: nat, blockType: nat): int {
    if slot == SHELLEY_START then SHELLEY_START_TIME
    else if ByronType(blockType) then ByronOffset(slot)
    else if slot < SHELLEY_START then ByronOffset(slot)
    else SHELLEY_START_TIME + ShelleyOffset(slot - SHELLEY_START)
  }

  /** isEpochBoundary */
  predicate IsEpochBoundary(slot: nat, blockType: nat) {
    if blockType == BYRON_EBB then true
    else if blockType == BYRON_MAIN then slot % BYRON_EPOCH_SLOTS == 0
    else slot % SHELLEY_EPOCH_SLOTS == 0
  }

  /** Byron block types come below the switch, the others at or above it. */
  predicate EraTyped(slot: nat, blockType: nat) { ByronType(blockType) <==> slot < SHELLEY_START }

  /** The epoch number of the slot fits uint32. */
  predicate EpochFits(slot: nat, blockType: nat) {
    if ByronType(blockType) || slot < SHELLEY_START then slot / BYRON_EPOCH_SLOTS < TWO_32
    else 208 + (slot - SHELLEY_START) / SHELLEY_EPOCH_SLOTS < TWO_32
  }

  /** The last slot offsets whose duration in nanoseconds still fits int64. */
  const LAST_BYRON_CLOCK_SLOT := 461168601
  const LAST_SHELLEY_CLOCK_SLOT := 9223372036

  /** The block time of the slot is computed without overflowing time.Duration. */
  predicate ClockFits(slot: nat, blockType: nat) {
    || slot == SHELLEY_START
    || (if ByronType(blockType) || slot < SHELLEY_START then slot <= LAST_BYRON_CLOCK_SLOT
        else slot - SHELLEY_START <= LAST_SHELLEY_CLOCK_SLOT)
  }

  lemma Int64Small(x: int)
    requires -TWO_63 <= x < TWO_63
    ensures Int64(x) == x
  {}

  /** Multiplying an already wrapped value and wrapping again is wrapping once. */
  lemma Int64Wraps(x: int) returns (q: int)
    ensures Int64(x) == x - q * (2 * TWO_63)
    ensures -TWO_63 <= Int64(x) < TWO_63
  {
    q := (x + TWO_63) / (2 * TWO_63);
  }

  /** The block time as real seconds: slots of 20 s before the switch, of 1 s after it. */
  function TrueTime(slot: nat, blockType: nat): nat {
    if ByronType(blockType) || slot < SHELLEY_START then slot * 20 * SECOND
    else SHELLEY_START_TIME + (slot - SHELLEY_START) * SECOND
  }

  /** The block time is the true time exactly on the slots whose duration fits. */
  lemma BlockTimeTrue(slot: nat, blockType: nat)
    ensures BlockTime(slot, blockType) == TrueTime(slot, blockType) <==> ClockFits(slot, blockType)
  {
    if slot != SHELLEY_START {
      if ByronType(blockType) || slot < SHELLEY_START { ByronClock(slot); } else { ShelleyClock(slot - SHELLEY_START); }
      hide ByronOffset, ShelleyOffset;
    }
  }

  lemma ByronClock(slot: nat)
    ensures -TWO_63 <= ByronOffset(slot) < TWO_63
    ensures slot <= LAST_BYRON_CLOCK_SLOT ==> ByronOffset(slot) == slot * 20 * SECOND
    ensures LAST_BYRON_CLOCK_SLOT < slot < 21351 * BYRON_EPOCH_SLOTS ==> ByronOffset(slot) < 0
  {
    var _ := Int64Wraps(Int64(Int64(slot) * 20) * SECOND);
    if slot < 21351 * BYRON_EPOCH_SLOTS {
      Int64Small(slot);
      Int64Small(slot * 20);
    }
  }

  lemma ShelleyClock(d: nat)
    ensures -TWO_63 <= ShelleyOffset(d) < TWO_63
    ensures d <= LAST_SHELLEY_CLOCK_SLOT ==> ShelleyOffset(d) == d * SECOND
    ensures LAST_SHELLEY_CLOCK_SLOT < d < 21351 * SHELLEY_EPOCH_SLOTS ==> ShelleyOffset(d) < 0
  {
    var _ := Int64Wraps(Int64(d) * SECOND);
    if d < 21351 * SHELLEY_EPOCH_SLOTS { Int64Small(d); }
  }

  /** The epoch read off the wall clock: 432000-second epochs counted from the Byron start. */
  function EpochByClock(slot: nat, blockType: nat): int { BlockTime(slot, blockType) / EPOCH_TIME }

  lemma WholeEpochs(base: nat, q: nat, rest: nat)
    requires rest < EPOCH_TIME
    ensures ((base + q) * EPOCH_TIME + rest) / EPOCH_TIME == base + q
  {}

  lemma ByronEpoch(slot: nat)
    ensures slot * 20 * SECOND / EPOCH_TIME == slot / BYRON_EPOCH_SLOTS
  {
    WholeEpochs(0, slot / BYRON_EPOCH_SLOTS, slot % BYRON_EPOCH_SLOTS * 20 * SECOND);
  }

  lemma ShelleyEpoch(d: nat)
    ensures (SHELLEY_START_TIME + d * SECOND) / EPOCH_TIME == 208 + d / SHELLEY_EPOCH_SLOTS
  {
    WholeEpochs(208, d / SHELLEY_EPOCH_SLOTS, d % SHELLEY_EPOCH_SLOTS * SECOND);
  }

  lemma Uint32Small(x: nat)
    requires x < TWO_32
    ensures Uint32(x) == x
  {}

  /** The epoch number without the uint32 conversions. */
  function TrueEpoch(slot: nat, blockType: nat): nat {
    if ByronType(blockType) || slot < SHELLEY_START then slot / BYRON_EPOCH_SLOTS
    else 208 + (slot - SHELLEY_START) / SHELLEY_EPOCH_SLOTS
  }

  lemma Uint32Adds(x: nat, y: nat)
    ensures Uint32(x + Uint32(y)) == Uint32(x + y)
  {
    var q := y / TWO_32;
    assert x + y == (x + Uint32(y)) + q * TWO_32;
    var r := (x + Uint32(y)) / TWO_32;
    assert x + y == (r + q) * TWO_32 + Uint32(x + Uint32(y));
  }

  /** getEpochForSlot keeps the lower 32 bits of the epoch number. */
  lemma EpochModulo(slot: nat, blockType: nat)
    ensures EpochForSlot(slot, blockType) == Uint32(TrueEpoch(slot, blockType))
    ensures EpochFits(slot, blockType) <==> TrueEpoch(slot, blockType) < TWO_32
    ensures EpochFits(slot, blockType) ==> EpochForSlot(slot, blockType) == TrueEpoch(slot, blockType)
  {
    if slot >= SHELLEY_START && !ByronType(blockType) {
      Uint32Adds(208, (slot - SHELLEY_START) / SHELLEY_EPOCH_SLOTS);
      hide Uint32;
      Uint32Small(208);
    }
    if EpochFits(slot, blockType) { Uint32Small(TrueEpoch(slot, blockType)); }
    hide Uint32;
    Uint32Small(208);
  }

  lemma TrueTimeEpoch(slot: nat, blockType: nat)
    ensures TrueTime(slot, blockType) / EPOCH_TIME == TrueEpoch(slot, blockType)
  {
    if ByronType(blockType) || slot < SHELLEY_START { ByronEpoch(slot); } else { ShelleyEpoch(slot - SHELLEY_START); }
  }

  /** Epoch by slot number equals epoch by clock exactly on the slots whose block time does not overflow
      time.Duration: for the epoch number itself on all slots, and for its lower 32 bits as long as it fits them. */
  lemma EpochEqualsClock(slot: nat, blockType: nat)
    ensures TrueEpoch(slot, blockType) == EpochByClock(slot, blockType) <==> ClockFits(slot, blockType)
    ensures EpochFits(slot, blockType) && EpochForSlot(slot, blockType) == EpochByClock(slot, blockType) <==> ClockFits(slot, blockType)
  {
    BlockTimeTrue(slot, blockType);
    TrueTimeEpoch(slot, blockType);
    EpochModulo(slot, blockType);
    if !ClockFits(slot, blockType) { OverflowedClock(slot, blockType); }
    hide EpochForSlot, BlockTime, TrueTime, TrueEpoch;
    if ClockFits(slot, blockType) { ClockFitsEpoch(slot, blockType); }
  }

  lemma ClockFitsEpoch(slot: nat, blockType: nat)
    requires ClockFits(slot, blockType)
    ensures EpochFits(slot, blockType)
  {}

  /** Once both overflow they can agree by chance: a Byron slot of epoch 2^48 that both take for epoch 0. */
  lemma BothOverflow()
    ensures var slot := 0x1_0000_0000_0000 * BYRON_EPOCH_SLOTS;
            EpochForSlot(slot, BYRON_MAIN) == EpochByClock(slot, BYRON_MAIN) == 0 && TrueEpoch(slot, BYRON_MAIN) == 0x1_0000_0000_0000
  {
    var slot := 0x1_0000_0000_0000 * BYRON_EPOCH_SLOTS;
    assert Int64(slot) == slot;
    assert slot / BYRON_EPOCH_SLOTS == 0x1_0000_0000_0000;
    assert Int64(Int64(slot * 20) * SECOND) == 0;
  }

  /** An overflowed clock reads an earlier epoch than the slot number gives. */
  lemma OverflowedClock(slot: nat, blockType: nat)
    requires !ClockFits(slot, blockType)
    ensures EpochByClock(slot, blockType) < TrueEpoch(slot, blockType)
  {
    if ByronType(blockType) || slot < SHELLEY_START {
      ByronClock(slot);
      hide ByronOffset;
    } else {
      ShelleyClock(slot - SHELLEY_START);
      hide ShelleyOffset;
    }
  }

  /** Along era-typed slots the block time is strictly increasing; one step of 20 s leads up to the
      switch and steps of 1 s lead away from it. */
  lemma BlockTimeIncreasing(s: nat, sType: nat, t: nat, tType: nat)
    requires EraTyped(s, sType) && EraTyped(t, tType) && s < t
    requires ClockFits(t, tType)
    ensures BlockTime(s, sType) < BlockTime(t, tType)
    ensures t == s + 1 ==>
      BlockTime(t, tType) - BlockTime(s, sType) == (if s < SHELLEY_START then 20 else 1) * SECOND
  {
    BlockTimeTrue(s, sType);
    BlockTimeTrue(t, tType);
  }

  /** Epoch numbers never decrease along the chain and rise by at most one a slot. */
  lemma EpochMonotone(s: nat, sType: nat, t: nat, tType: nat)
    requires EraTyped(s, sType) && EraTyped(t, tType) && s <= t
    requires EpochFits(t, tType)
    ensures EpochForSlot(s, sType) <= EpochForSlot(t, tType)
    ensures t == s + 1 ==> EpochForSlot(t, tType) <= EpochForSlot(s, sType) + 1
  {
    assert EpochFits(s, sType);
    EpochModulo(s, sType);
    EpochModulo(t, tType);
    hide EpochForSlot;
  }

  /** The one slot of a Shelley+ epoch that isEpochBoundary flags. */
  function FlaggedSlot(epoch: nat): (slot: nat)
    requires epoch >= 208
  {
    (epoch - 197) * SHELLEY_EPOCH_SLOTS
  }

  /** Every Shelley+ epoch holds exactly one flagged slot, and it is not the first slot of the epoch:
      it comes 259200 slots later, because the switch is not at a multiple of 432000. */
  lemma OneFlaggedSlotPerEpoch(epoch: nat, slot: nat, blockType: nat)
    requires epoch >= 208 && slot >= SHELLEY_START && blockType >= SHELLEY && EpochFits(slot, blockType)
    ensures IsEpochBoundary(slot, blockType) && EpochForSlot(slot, blockType) == epoch <==> slot == FlaggedSlot(epoch)
    ensures FlaggedSlot(epoch) == SHELLEY_START + (epoch - 208) * SHELLEY_EPOCH_SLOTS + 259200
  {
    EpochModulo(slot, blockType);
    hide EpochForSlot, EpochFits;
    var q := slot / SHELLEY_EPOCH_SLOTS;
    assert slot % SHELLEY_EPOCH_SLOTS == slot - q * SHELLEY_EPOCH_SLOTS;
  }

  /** A Byron main block above slot 0 is flagged exactly where the epoch number changes. */
  lemma ByronFlagIsEpochChange(slot: nat)
    requires 0 < slot < SHELLEY_START
    ensures IsEpochBoundary(slot, BYRON_MAIN) <==> EpochForSlot(slot, BYRON_MAIN) != EpochForSlot(slot - 1, BYRON_MAIN)
  {}
}
