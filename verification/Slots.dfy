/** The alphabets' sizes, and position slots: how a match offset is split into a slot and the offset bits below it. */
module Slots {
  import opened Bits

  /** The largest chunk. */
  const WINDOW_SIZE: nat := 32768

  const MAIN_CODE_COUNT: nat := 496
  const MAIN_CODE_SPLIT: nat := 256
  const LEN_CODE_COUNT: nat := 249
  const ALIGNED_COUNT: nat := 8
  const MIN_MATCH: nat := 2
  const SLOT_COUNT: nat := 31

  const FOOTER_BITS: seq<nat> := [
    0, 0, 0, 0, 1, 1, 2, 2, 3, 3, 4, 4, 5, 5, 6, 6,
    7, 7, 8, 8, 9, 9, 10, 10, 11, 11, 12, 12, 13, 13, 14
  ]

  const BASE_POSITION: seq<nat> := [
    0, 1, 2, 3, 4, 6, 8, 12, 16, 24, 32, 48, 64, 96, 128, 192,
    256, 384, 512, 768, 1024, 1536, 2048, 3072, 4096, 6144, 8192,
    12288, 16384, 24576, 32768
  ]

  /** The offset bits of a slot. */
  function Footer(slot: nat): (n: nat)
  {
    if slot < 4 then 0 else slot / 2 - 1
  }

  /** Where a slot starts: the slots before it take up 2^Footer offsets each. */
  function Base(slot: nat): (b: nat)
  {
    if slot == 0 then 0 else Base(slot - 1) + Pow2(Footer(slot - 1))
  }

  /**
   * The tables: every slot begins where the one before it ends, and there are offset bits enough to reach all of it.
   */
  lemma TablesAreSlots(slot: nat)
    requires slot < SLOT_COUNT
    ensures |FOOTER_BITS| == SLOT_COUNT && FOOTER_BITS[slot] == Footer(slot)
    ensures |BASE_POSITION| == SLOT_COUNT && BASE_POSITION[slot] == Base(slot)
  {
    FooterTable(slot);
    BaseTable(slot);
  }

  lemma FooterTable(slot: nat)
    requires slot < SLOT_COUNT
    ensures |FOOTER_BITS| == SLOT_COUNT && FOOTER_BITS[slot] == Footer(slot)
  {
  }

  lemma {:induction false} BaseTable(slot: nat)
    requires slot < SLOT_COUNT
    ensures |BASE_POSITION| == SLOT_COUNT && BASE_POSITION[slot] == Base(slot)
  {
    hide Pow2, Footer;
    if slot > 0 {
      BaseTable(slot - 1);
      FooterPowers(slot - 1);
    }
  }

  lemma FooterPowers(slot: nat)
    requires slot < 30
    ensures Pow2(Footer(slot)) == BASE_POSITION[slot + 1] - BASE_POSITION[slot]
  {
    PowersTo13(Footer(slot));
  }

  lemma {:induction false} PowersTo13(n: nat)
    requires n <= 13
    ensures Pow2(n) == [1, 2, 4, 8, 16, 32, 64, 128, 256, 512, 1024, 2048, 4096, 8192][n]
  {
    if n > 0 { PowersTo13(n - 1); }
  }

  lemma {:induction false} BaseMonotone(a: nat, b: nat)
    requires a <= b
    ensures Base(a) <= Base(b)
    decreases b - a
  {
    if a < b { BaseMonotone(a, b - 1); }
  }

  /** The slot an adjusted offset belongs to: the last one that starts at or before it. */
  function SlotAtMost(adjusted: nat, slot: nat): (r: nat)
    ensures r <= slot && Base(r) <= adjusted && (r < slot ==> adjusted < Base(r + 1))
  {
    if slot > 0 && Base(slot) > adjusted then SlotAtMost(adjusted, slot - 1) else slot
  }

  function PositionSlot(adjusted: nat): (r: nat)
    ensures r < SLOT_COUNT && Base(r) <= adjusted && (r < SLOT_COUNT - 1 ==> adjusted < Base(r + 1))
  {
    SlotAtMost(adjusted, SLOT_COUNT - 1)
  }

  method LookUpBase(slot: nat) returns (b: nat)
    requires slot < SLOT_COUNT
    ensures b == Base(slot)
  {
    BaseTable(slot);
    b := BASE_POSITION[slot];
  }

  method LookUpFooter(slot: nat) returns (n: nat)
    requires slot < SLOT_COUNT
    ensures n == Footer(slot) <= 14
  {
    FooterTable(slot);
    n := FOOTER_BITS[slot];
  }

  method FindPositionSlot(adjusted: nat) returns (slot: nat)
    ensures slot == PositionSlot(adjusted)
  {
    hide Pow2, Footer;
    slot := SLOT_COUNT - 1;
    var base := LookUpBase(slot);
    while base > adjusted
      invariant slot < SLOT_COUNT && base == Base(slot)
      invariant SlotAtMost(adjusted, slot) == PositionSlot(adjusted)
      decreases slot
    {
      slot := slot - 1;
      base := LookUpBase(slot);
    }
  }

  lemma EndsOfSlots()
    ensures Base(3) == 3 && Base(SLOT_COUNT - 1) == WINDOW_SIZE
  {
    TablesAreSlots(3);
    TablesAreSlots(SLOT_COUNT - 1);
  }

  /** The slots partition the adjusted offsets. */
  lemma SlotIsUnique(adjusted: nat, slot: nat)
    requires slot < SLOT_COUNT - 1 && Base(slot) <= adjusted < Base(slot + 1)
    ensures PositionSlot(adjusted) == slot
  {
    hide Base, SlotAtMost;
    var r := PositionSlot(adjusted);
    if r < slot { BaseMonotone(r + 1, slot); }
    if slot < r { BaseMonotone(slot + 1, r); }
  }

  /** An offset in a window, adjusted, has a slot from 3 to 29, and what is above the slot's base fits its bits. */
  lemma OffsetSlot(offset: nat)
    requires 1 <= offset && offset + MIN_MATCH < WINDOW_SIZE
    ensures var slot := PositionSlot(offset + MIN_MATCH);
            3 <= slot < SLOT_COUNT - 1 && offset + MIN_MATCH - Base(slot) < Pow2(Footer(slot))
  {
    var slot := PositionSlot(offset + MIN_MATCH);
    EndsOfSlots();
    if slot < 3 { BaseMonotone(slot + 1, 3); }
  }

  /** The last adjusted offset of a window is the last one that slot 29 reaches. */
  lemma LastOffset()
    ensures PositionSlot(WINDOW_SIZE - 1) == 29 && PositionSlot(WINDOW_SIZE) == 30
    ensures WINDOW_SIZE - 1 - Base(29) == Pow2(Footer(29)) - 1
  {
    EndsOfSlots();
    TablesAreSlots(29);
    FooterPowers(29);
    SlotIsUnique(WINDOW_SIZE - 1, 29);
  }
}
